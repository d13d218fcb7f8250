/** What every run of the scheduler keeps, whatever the session answers. */
module DownloaderRuns {
  import opened Machine
  import opened HashFormat
  import opened RequestQueue
  import opened Downloader

  /** The public calls. `Direct` is `process_single_request` called from outside `process_queue`, which
      nothing in the program does. */
  datatype Event =
    | Request(entry: Entry, answers: Answers)
    | Receipt(hash: Text, answers: Answers)
    | Cleanup(now: int, answers: Answers)
    | Force(answers: Answers)
    | Adjust
    | SetMax(max: Int32)
    | SetTimeout(seconds: Int32)
    | CountSuccess
    | CountFailure
    | Direct(entry: Entry, answer: Answer)

  ghost function Step(w: World, e: Event): World {
    match e
    case Request(entry, answers) => Requested(w, entry, answers)
    case Receipt(hash, answers) => Process(Received(w, hash), answers, 0, 0)
    case Cleanup(now, answers) => CleanedUp(w, now, answers)
    case Force(answers) => Process(w, answers, 0, 0)
    case Adjust => w.(limit := AdjustedLimit(w))
    case SetMax(max) => w.(limit := max)
    case SetTimeout(seconds) => w.(timeoutSec := seconds)
    case CountSuccess => w.(success := w.success + 1)
    case CountFailure => w.(failure := w.failure + 1)
    case Direct(entry, answer) => Called(w, entry, answer)
  }

  function Called(w: World, e: Entry, a: Answer): World {
    if Succeeds(e, a) then w.(active := w.active[e.hash := Info(a.now, e.priority, e.source)]) else w
  }

  ghost function Run(w: World, events: seq<Event>): World {
    if events == [] then w else Step(Run(w, events[..|events| - 1]), events[|events| - 1])
  }

  /** The event is no direct call, or one that is refused or meets an active hash. */
  predicate Regular(w: World, e: Event) {
    e.Direct? && Succeeds(e.entry, e.answer) ==> e.entry.hash in w.active
  }

  ghost predicate RegularRun(w: World, events: seq<Event>) {
    events == [] ||
      var n := |events| - 1;
      RegularRun(w, events[..n]) && Regular(Run(w, events[..n]), events[n])
  }

  // ----- The invariant -----

  /** Queued hashes are distinct and none of them is active. */
  ghost predicate Exclusive(w: World) {
    Distinct(w.queue) && forall e :: e in w.queue ==> e.hash !in w.active
  }

  ghost function Retried(source: string, n: nat): string {
    if n == 0 then source else Retried(source, n - 1) + "_RETRY"
  }

  /** A queued entry is the granted request after `tries` failures: each took one from its budget of
      max(1, priority) attempts and left its mark on the source. */
  ghost predicate Owed(log: Log, e: Entry) {
    && e.hash in log.granted && e.hash in log.tries
    && log.tries[e.hash] + Max(1, e.priority) == Max(1, log.granted[e.hash].priority)
    && e.source == Retried(log.granted[e.hash].source, log.tries[e.hash])
  }

  ghost predicate WithinBudget(log: Log) {
    forall h :: h in log.tries ==> h in log.granted && log.tries[h] <= Max(1, log.granted[h].priority)
  }

  ghost predicate Conserved(w: World) {
    && w.totalQueued == |w.queue| + w.totalProcessed + w.log.drops
    && w.totalProcessed == |w.active| + w.log.received + w.timeouts
    && w.log.drops <= w.failure
  }

  ghost predicate Inv(w: World) {
    && Exclusive(w)
    && (forall e :: e in w.queue ==> Owed(w.log, e))
    && WithinBudget(w.log)
    && Conserved(w)
    && (!w.session ==> w.queue == [] && w.active == map[])
  }

  // ----- One turn -----

  /** Charging one attempt to the taken entry leaves the others' accounts alone. */
  lemma TakenFacts(w: World)
    requires Inv(w) && w.queue != []
    ensures Exclusive(Taken(w)) && Next(w).hash !in Hashes(Taken(w).queue) && Next(w).hash !in w.active
    ensures |Taken(w).queue| == |w.queue| - 1
    ensures forall e :: e in Taken(w).queue ==> Owed(Taken(w).log, e)
    ensures WithinBudget(Taken(w).log)
    ensures Owed(w.log, Next(w)) && Taken(w).log == w.log.(tries := Taken(w).log.tries)
    ensures var h := Next(w).hash; h in Taken(w).log.tries && Taken(w).log.tries[h] == w.log.tries[h] + 1
  {
    var b := Best(w.queue);
    var h := Next(w).hash;
    assert Next(w) in w.queue && Owed(w.log, Next(w));
    RemovalKeepsIndex(w.queue, b);
    forall e | e in Without(w.queue, b) ensures e in w.queue && e.hash != h && Owed(Taken(w).log, e) {
      StillThere(w.queue, b, e);
      assert Owed(w.log, e);
    }
  }

  lemma StartedKeepsInv(w: World, now: int)
    requires Inv(w) && w.queue != []
    ensures Inv(Started(Taken(w), Next(w), now))
  {
    TakenFacts(w);
    var h := Next(w).hash;
    var u := Started(Taken(w), Next(w), now);
    assert u.active.Keys == w.active.Keys + {h};
    assert |u.active| == |w.active| + 1;
    forall e | e in u.queue ensures e.hash !in u.active && Owed(u.log, e) {
      assert e.hash in Hashes(Taken(w).queue);
    }
  }

  lemma RequeuedKeepsInv(w: World)
    requires Inv(w) && w.queue != [] && Next(w).priority > 1
    ensures Inv(Requeued(Taken(w), Next(w)))
  {
    TakenFacts(w);
    var d := Demoted(Next(w));
    AppendKeepsExclusive(Taken(w), d);
    DemotedIsOwed(w);
    assert Requeued(Taken(w), Next(w)).queue == Taken(w).queue + [d];
  }

  /** The lowered priority pays for the attempt. */
  lemma DemotedIsOwed(w: World)
    requires w.queue != [] && Owed(w.log, Next(w)) && Next(w).priority > 1
    ensures Owed(Taken(w).log, Demoted(Next(w)))
  {
  }

  lemma AppendKeepsExclusive(w: World, e: Entry)
    requires Exclusive(w) && !Handled(w, e.hash)
    ensures Enqueued(w.queue, e) == w.queue + [e] && Exclusive(w.(queue := w.queue + [e]))
  {
    forall i | 0 <= i < |w.queue| ensures w.queue[i].hash != e.hash {
      assert w.queue[i].hash in Hashes(w.queue);
    }
  }

  lemma DroppedKeepsInv(w: World)
    requires Inv(w) && w.queue != []
    ensures Inv(Dropped(Taken(w)))
  {
    TakenFacts(w);
  }

  lemma TurnKeepsInv(w: World, a: Answer)
    requires Inv(w) && w.queue != []
    ensures Inv(Turn(w, a))
  {
    if Succeeds(Next(w), a) {
      StartedKeepsInv(w, a.now);
    } else if Next(w).priority > 1 {
      RequeuedKeepsInv(w);
    } else {
      DroppedKeepsInv(w);
    }
  }

  /** A request is dropped for good only when its last allowed attempt has failed. */
  lemma DropMeansBudgetSpent(w: World, a: Answer)
    requires Inv(w) && w.queue != [] && Turn(w, a).log.drops > w.log.drops
    ensures
      var h := Next(w).hash;
      var log := Turn(w, a).log;
      !Succeeds(Next(w), a) && h in log.tries && h in log.granted && log.tries[h] == Max(1, log.granted[h].priority)
  {
    TakenFacts(w);
  }

  // ----- Calls and runs -----

  lemma {:induction false} ProcessKeepsInv(w: World, answers: Answers, k: nat, done: nat)
    requires Inv(w)
    ensures Inv(Process(w, answers, k, done))
    decreases Work(w.queue)
  {
    if MayProcess(w, done) {
      ProcessTurn(w, answers, k, done);
      TurnKeepsInv(w, answers(k));
      ProcessKeepsInv(Turn(w, answers(k)), answers, k + 1, if Succeeds(Next(w), answers(k)) then done + 1 else done);
    } else {
      ProcessStops(w, answers, k, done);
    }
  }

  lemma AdmittedKeepsInv(w: World, e: Entry)
    requires Inv(w) && w.session && !Handled(w, e.hash)
    ensures Inv(Admitted(w, e))
  {
    var u := Admitted(w, e);
    assert u.queue == w.queue + [e];
    forall x | x in w.queue ensures x.hash != e.hash && Owed(u.log, x) {
      assert x.hash in Hashes(w.queue);
      assert Owed(w.log, x);
    }
    assert Owed(u.log, e);
  }

  lemma ReceivedKeepsInv(w: World, h: Text)
    requires Inv(w)
    ensures Inv(Received(w, h))
  {
    var u := Received(w, h);
    assert u.active.Keys == w.active.Keys - {h};
    assert |u.active| == |u.active.Keys| && |w.active| == |w.active.Keys|;
  }

  lemma SweptKeepsInv(w: World, gone: set<Text>)
    requires Inv(w) && gone <= w.active.Keys
    ensures Inv(Swept(w, gone))
  {
    var u := Swept(w, gone);
    assert u.active.Keys == w.active.Keys - gone;
    assert |u.active| == |u.active.Keys| && |w.active| == |w.active.Keys|;
  }

  /** A direct call keeps the invariant exactly when it is regular: starting any other hash makes it active
      without being counted as processed. */
  lemma DirectCallExactly(w: World, e: Entry, a: Answer)
    requires Inv(w)
    ensures Inv(Called(w, e, a)) <==> Regular(w, Direct(e, a))
  {
    var u := Called(w, e, a);
    if Succeeds(e, a) {
      assert u.active.Keys == w.active.Keys + {e.hash};
      assert |u.active| == |u.active.Keys| && |w.active| == |w.active.Keys|;
      if e.hash in w.active {
        assert u.active.Keys == w.active.Keys;
      } else {
        assert |u.active| == |w.active| + 1;
        assert !Conserved(u);
      }
    }
  }

  lemma StepKeepsInv(w: World, e: Event)
    requires Inv(w) && Regular(w, e)
    ensures Inv(Step(w, e))
  {
    match e
    case Request(entry, answers) =>
      if w.session && !Handled(w, entry.hash) {
        AdmittedKeepsInv(w, entry);
        ProcessKeepsInv(Admitted(w, entry), answers, 0, 0);
      }
    case Receipt(hash, answers) =>
      ReceivedKeepsInv(w, hash);
      ProcessKeepsInv(Received(w, hash), answers, 0, 0);
    case Cleanup(now, answers) =>
      var gone := Expired(w, now);
      if gone != {} {
        SweptKeepsInv(w, gone);
        ProcessKeepsInv(Swept(w, gone), answers, 0, 0);
      }
    case Force(answers) => ProcessKeepsInv(w, answers, 0, 0);
    case Direct(entry, answer) => DirectCallExactly(w, entry, answer);
    case _ =>
  }

  /** In every reachable state: no hash queued twice or both queued and active, the two conservation laws
      of the counters, every request within its attempt budget, and nothing queued or active without a
      session. */
  lemma {:induction false} ReachableInv(session: bool, events: seq<Event>)
    requires RegularRun(START.(session := session), events)
    ensures Inv(Run(START.(session := session), events))
  {
    if events != [] {
      var n := |events| - 1;
      ReachableInv(session, events[..n]);
      StepKeepsInv(Run(START.(session := session), events[..n]), events[n]);
    }
  }

  // ----- Concurrency -----

  /** Limit `limit` allows at most `m` at once; a negative one, cast to `size_t`, allows any number. */
  predicate Allows(limit: Int32, m: nat) {
    if limit < 0 then 0x1_0000_0000_0000_0000 <= m else limit <= m
  }

  ghost predicate Capped(w: World, m: nat) {
    |w.active| <= m && Allows(w.limit, m)
  }

  lemma TurnKeepsCap(w: World, a: Answer, m: nat)
    requires w.queue != [] && |w.active| < AsSize(w.limit) && Allows(w.limit, m)
    ensures Capped(Turn(w, a), m) && Turn(w, a).limit == w.limit
  {
    var h := Next(w).hash;
    var u := Started(Taken(w), Next(w), a.now);
    assert u.active.Keys == w.active.Keys + {h};
    assert |u.active| == |u.active.Keys| <= |w.active.Keys| + 1 == |w.active| + 1;
  }

  lemma {:induction false} ProcessKeepsCap(w: World, answers: Answers, k: nat, done: nat, m: nat)
    requires Capped(w, m)
    ensures Capped(Process(w, answers, k, done), m) && Process(w, answers, k, done).limit == w.limit
    decreases Work(w.queue)
  {
    if MayProcess(w, done) {
      ProcessTurn(w, answers, k, done);
      TurnKeepsCap(w, answers(k), m);
      ProcessKeepsCap(Turn(w, answers(k)), answers, k + 1, if Succeeds(Next(w), answers(k)) then done + 1 else done, m);
    } else {
      ProcessStops(w, answers, k, done);
    }
  }

  lemma FewerActiveKeepsCap(w: World, gone: set<Text>, m: nat)
    requires |w.active| <= m
    ensures |w.active - gone| <= m
  {
    assert (w.active - gone).Keys == w.active.Keys - gone;
    assert |w.active - gone| == |w.active.Keys - gone| <= |w.active.Keys|;
  }

  lemma RequestKeepsCap(w: World, entry: Entry, answers: Answers, m: nat)
    requires Capped(w, m)
    ensures Capped(Requested(w, entry, answers), m) && Requested(w, entry, answers).limit == w.limit
  {
    if w.session && !Handled(w, entry.hash) {
      ProcessKeepsCap(Admitted(w, entry), answers, 0, 0, m);
    }
  }

  lemma DirectKeepsActive(w: World, e: Entry, a: Answer)
    requires Regular(w, Direct(e, a))
    ensures |Called(w, e, a).active| == |w.active|
  {
    var u := Called(w, e, a);
    assert u.active.Keys == w.active.Keys;
    assert |u.active| == |u.active.Keys| && |w.active| == |w.active.Keys|;
  }

  lemma CleanupKeepsCap(w: World, now: int, answers: Answers, m: nat)
    requires Capped(w, m)
    ensures Capped(CleanedUp(w, now, answers), m) && CleanedUp(w, now, answers).limit == w.limit
  {
    var gone := Expired(w, now);
    if gone != {} {
      FewerActiveKeepsCap(w, gone, m);
      ProcessKeepsCap(Swept(w, gone), answers, 0, 0, m);
    }
  }

  lemma ReceiptKeepsCap(w: World, hash: Text, answers: Answers, m: nat)
    requires Capped(w, m)
    ensures
      var w' := Process(Received(w, hash), answers, 0, 0);
      Capped(w', m) && w'.limit == w.limit
  {
    FewerActiveKeepsCap(w, {hash}, m);
    ProcessKeepsCap(Received(w, hash), answers, 0, 0, m);
  }

  lemma StepKeepsCap(w: World, e: Event, m: nat)
    requires Capped(w, m) && 1000 <= m && (e.SetMax? ==> Allows(e.max, m)) && Regular(w, e)
    ensures Capped(Step(w, e), m)
    ensures !e.SetMax? && 200 <= w.limit <= 1000 ==> 200 <= Step(w, e).limit <= 1000
  {
    match e
    case Request(entry, answers) => RequestKeepsCap(w, entry, answers, m);
    case Receipt(hash, answers) => ReceiptKeepsCap(w, hash, answers, m);
    case Cleanup(now, answers) => CleanupKeepsCap(w, now, answers, m);
    case Force(answers) => ProcessKeepsCap(w, answers, 0, 0, m);
    case Direct(entry, answer) => DirectKeepsActive(w, entry, answer);
    case _ =>
  }

  ghost predicate LimitsWithin(events: seq<Event>, m: nat) {
    forall i :: 0 <= i < |events| && events[i].SetMax? ==> Allows(events[i].max, m)
  }

  /** The active requests never outnumber the largest limit ever set (1000 from the start, none when it is
      negative), although the limit may be lowered under them; and while only `adjust_concurrent_limit` moves it, the limit stays
      in [200, 1000]. */
  lemma {:induction false} ActiveNeverExceedsCap(session: bool, events: seq<Event>, m: nat)
    requires 1000 <= m && LimitsWithin(events, m) && RegularRun(START.(session := session), events)
    ensures Capped(Run(START.(session := session), events), m)
    ensures (forall i :: 0 <= i < |events| ==> !events[i].SetMax?) ==>
      200 <= Run(START.(session := session), events).limit <= 1000
  {
    if events != [] {
      var n := |events| - 1;
      ActiveNeverExceedsCap(session, events[..n], m);
      StepKeepsCap(Run(START.(session := session), events[..n]), events[n], m);
    }
  }
}
