/** What each call of the scheduler does, seen from outside: which requests start, stay, leave or are
    given up. */
module DownloaderCalls {
  import opened Machine
  import opened HashFormat
  import opened RequestQueue
  import opened Downloader
  import opened DownloaderRuns

  // ----- One attempt -----

  /** The request of highest priority leaves the queue. It becomes active exactly when its hash names a
      160-bit number and the session takes it; otherwise it goes to the end of the queue one priority
      lower, or, at priority 1 or below, is counted as a failure. */
  lemma TurnExactly(w: World, a: Answer)
    requires Exclusive(w) && w.queue != []
    ensures
      var b := Best(w.queue);
      var e, rest, w' := w.queue[b], w.queue[..b] + w.queue[b + 1..], Turn(w, a);
      var starts := Accepted(e.hash) && a.ok;
      && w'.active == (if starts then w.active[e.hash := Info(a.now, e.priority, e.source)] else w.active)
      && w'.queue == (if !starts && e.priority > 1 then rest + [Entry(e.hash, e.priority - 1, e.source + "_RETRY")] else rest)
      && w'.totalProcessed == w.totalProcessed + (if starts then 1 else 0)
      && w'.failure == w.failure + (if !starts && e.priority <= 1 then 1 else 0)
  {
    var e := Next(w);
    ConversionKeepsValue(e.hash);
    ConvertibleIffConverted(e.hash);
    TakenFrame(w);
    AppendKeepsExclusive(Taken(w), Demoted(e));
  }

  // ----- How much one round starts -----

  /** A round starts at most 50 requests, and stops short of 50 only with the queue empty or no slot free. */
  lemma {:induction false} RoundGoesOn(w: World, answers: Answers, k: nat, done: nat)
    requires done <= 50
    ensures
      var w' := Process(w, answers, k, done);
      var started := w'.totalProcessed - w.totalProcessed;
      && 0 <= started <= 50 - done
      && (started < 50 - done ==> w'.queue == [] || |w'.active| >= AsSize(w'.limit))
    decreases Work(w.queue)
  {
    if MayProcess(w, done) {
      ProcessTurn(w, answers, k, done);
      RoundGoesOn(Turn(w, answers(k)), answers, k + 1, if Succeeds(Next(w), answers(k)) then done + 1 else done);
    } else {
      ProcessStops(w, answers, k, done);
    }
  }

  ghost predicate AllWillStart(q: seq<Entry>, answers: Answers) {
    (forall k :: answers(k).ok) && forall e :: e in q ==> Convertible(e.hash)
  }

  function Room(w: World): nat {
    if |w.active| < AsSize(w.limit) then AsSize(w.limit) - |w.active| else 0
  }

  ghost predicate ActiveAs(w: World, e: Entry) {
    e.hash in w.active && w.active[e.hash].priority == e.priority && w.active[e.hash].source == e.source
  }

  /** `w'` is `w` with the first `n` requests of the drained queue started. */
  ghost predicate FirstStarted(w: World, w': World, n: nat) {
    && n <= |Drain(w.queue)|
    && Drain(w'.queue) == Drain(w.queue)[n..]
    && w'.active.Keys == w.active.Keys + Hashes(Drain(w.queue)[..n])
    && (forall i :: 0 <= i < n ==> ActiveAs(w', Drain(w.queue)[i]))
    && w'.totalProcessed == w.totalProcessed + n && w'.failure == w.failure
  }

  lemma {:induction false} DrainSize(q: seq<Entry>)
    ensures |Drain(q)| == |q|
    decreases |q|
  {
    if q != [] { DrainSize(Without(q, Best(q))); }
  }

  lemma StartFacts(w: World, now: int)
    requires Exclusive(w) && w.queue != []
    ensures
      var u := Started(Taken(w), Next(w), now);
      && Exclusive(u) && u.limit == w.limit
      && |u.active| == |w.active| + 1 && u.active.Keys == w.active.Keys + {Next(w).hash}
      && Drain(w.queue) == [Next(w)] + Drain(u.queue)
      && forall e :: e in u.queue ==> e in w.queue && e.hash != Next(w).hash
  {
    var b, e := Best(w.queue), Next(w);
    assert e in w.queue;
    RemovalKeepsIndex(w.queue, b);
    forall x | x in Without(w.queue, b) ensures x in w.queue && x.hash != e.hash {
      StillThere(w.queue, b, x);
    }
    var u := Started(Taken(w), e, now);
    assert u.active.Keys == w.active.Keys + {e.hash};
    assert |u.active| == |u.active.Keys| && |w.active| == |w.active.Keys|;
  }

  lemma HashesOfMore(d: seq<Entry>, e: Entry, r: seq<Entry>, n: nat)
    requires d == [e] + r && n <= |r|
    ensures d[n + 1..] == r[n..] && Hashes(d[..n + 1]) == {e.hash} + Hashes(r[..n])
  {
    assert d[..n + 1] == [e] + r[..n];
    assert Hashes([e]) == {e.hash};
    HashesOfBoth([e], r[..n]);
  }

  lemma HashesOfBoth(a: seq<Entry>, b: seq<Entry>)
    ensures Hashes(a + b) == Hashes(a) + Hashes(b)
  {
  }

  ghost predicate StartedOne(w: World, u: World, e: Entry) {
    && Drain(w.queue) == [e] + Drain(u.queue) && u.active.Keys == w.active.Keys + {e.hash} && ActiveAs(u, e)
    && u.totalProcessed == w.totalProcessed + 1 && u.failure == w.failure
  }

  lemma NoneStarted(w: World)
    ensures FirstStarted(w, w, 0)
  {
    assert Drain(w.queue)[..0] == [] && Hashes([]) == {};
    assert Drain(w.queue)[0..] == Drain(w.queue);
  }

  /** Starting one more from the front. */
  lemma FirstStartedStep(w: World, u: World, w': World, e: Entry, n: nat)
    requires FirstStarted(u, w', n) && StartedOne(w, u, e) && ActiveAs(w', e)
    ensures FirstStarted(w, w', n + 1)
  {
    var d, r := Drain(w.queue), Drain(u.queue);
    HashesOfMore(d, e, r, n);
    forall i | 0 <= i < n + 1 ensures ActiveAs(w', d[i]) {
      if i > 0 { assert d[i] == r[i - 1]; }
    }
  }

  /** How many requests a round that has started `done` still starts when nothing is refused. */
  function Amount(w: World, done: nat): nat
    requires done <= 50
  {
    Min(50 - done, Min(Room(w), |w.queue|))
  }

  lemma AcceptedTurn(w: World, answers: Answers, k: nat, done: nat)
    requires Exclusive(w) && AllWillStart(w.queue, answers) && MayProcess(w, done) && done < 50
    ensures
      var u := Started(Taken(w), Next(w), answers(k).now);
      && Process(w, answers, k, done) == Process(u, answers, k + 1, done + 1)
      && Work(u.queue) < Work(w.queue)
      && Amount(w, done) == Amount(u, done + 1) + 1
  {
    assert Next(w) in w.queue && Succeeds(Next(w), answers(k));
    ProcessTurn(w, answers, k, done);
    OneFewer(w, answers(k).now);
  }

  lemma OneFewer(w: World, now: int)
    requires Exclusive(w) && w.queue != []
    ensures var u := Started(Taken(w), Next(w), now);
      |u.active| == |w.active| + 1 && |u.queue| == |w.queue| - 1 && u.limit == w.limit
  {
    StartFacts(w, now);
  }

  lemma StartsOne(w: World, answers: Answers, now: int)
    requires Exclusive(w) && AllWillStart(w.queue, answers) && w.queue != []
    ensures var u := Started(Taken(w), Next(w), now);
      Exclusive(u) && AllWillStart(u.queue, answers) && StartedOne(w, u, Next(w))
  {
    StartFacts(w, now);
  }

  /** With nothing refused, a round starts the first min(50, free slots, queue length) requests in order of
      priority, and leaves the rest queued. */
  lemma {:induction false} RoundStartsFirst(w: World, answers: Answers, k: nat, done: nat)
    requires Exclusive(w) && AllWillStart(w.queue, answers) && done <= 50
    ensures FirstStarted(w, Process(w, answers, k, done), Amount(w, done))
    decreases Work(w.queue)
  {
    if MayProcess(w, done) {
      MayStartMore(done);
      var e, now := Next(w), answers(k).now;
      var u := Started(Taken(w), e, now);
      AcceptedTurn(w, answers, k, done);
      StartsOne(w, answers, now);
      RoundStartsFirst(u, answers, k + 1, done + 1);
      var w' := Process(u, answers, k + 1, done + 1);
      StartedStays(u, e, answers, k + 1, done + 1);
      FirstStartedStep(w, u, w', e, Amount(u, done + 1));
    } else {
      ProcessStops(w, answers, k, done);
      NoneStarted(w);
      NoMore(w, done);
    }
  }

  lemma NoMore(w: World, done: nat)
    requires done <= 50 && !MayProcess(w, done)
    ensures Amount(w, done) == 0
  {
  }

  lemma MayStartMore(done: nat)
    ensures done < MAX_PER_ROUND ==> done < 50
  {
  }

  lemma StartedStays(u: World, e: Entry, answers: Answers, k: nat, done: nat)
    requires Exclusive(u) && ActiveAs(u, e)
    ensures ActiveAs(Process(u, answers, k, done), e)
  {
    ProcessFrame(u, answers, k, done);
  }

  // ----- What a round leaves alone -----

  ghost predicate SameSettings(w: World, w': World) {
    && w'.session == w.session && w'.limit == w.limit && w'.timeoutSec == w.timeoutSec
    && w'.success == w.success && w'.timeouts == w.timeouts && w'.totalQueued == w.totalQueued
  }

  /** Active requests stay as they are; only queued hashes become active, and none is queued anew. */
  ghost predicate Framed(w: World, w': World) {
    && SameSettings(w, w')
    && (forall h :: h in w.active ==> h in w'.active && w'.active[h] == w.active[h])
    && Hashes(w'.queue) <= Hashes(w.queue)
    && w'.active.Keys <= w.active.Keys + Hashes(w.queue)
  }

  lemma TakenFrame(w: World)
    requires Exclusive(w) && w.queue != []
    ensures Next(w).hash in Hashes(w.queue) && Next(w).hash !in w.active
    ensures Hashes(Taken(w).queue) == Hashes(w.queue) - {Next(w).hash} && Distinct(Taken(w).queue)
    ensures Exclusive(Taken(w))
  {
    assert Next(w) in w.queue;
    RemovalKeepsIndex(w.queue, Best(w.queue));
    forall e | e in Taken(w).queue ensures e.hash !in w.active {
      StillThere(w.queue, Best(w.queue), e);
    }
  }

  lemma RequeueFrame(w: World)
    requires Exclusive(w) && w.queue != []
    ensures
      var u := Requeued(Taken(w), Next(w));
      Exclusive(u) && Hashes(u.queue) == Hashes(w.queue) && |u.queue| == |w.queue|
  {
    TakenFrame(w);
    var t, d := Taken(w), Demoted(Next(w));
    AppendKeepsExclusive(t, d);
    assert Hashes(t.queue + [d]) == Hashes(t.queue) + {d.hash};
  }

  lemma TurnFrame(w: World, a: Answer)
    requires Exclusive(w) && w.queue != []
    ensures Framed(w, Turn(w, a)) && Exclusive(Turn(w, a))
  {
    TakenFrame(w);
    if Succeeds(Next(w), a) {
      StartFacts(w, a.now);
    } else if Next(w).priority > 1 {
      RequeueFrame(w);
    }
  }

  lemma {:induction false} ProcessFrame(w: World, answers: Answers, k: nat, done: nat)
    requires Exclusive(w)
    ensures Framed(w, Process(w, answers, k, done)) && Exclusive(Process(w, answers, k, done))
    decreases Work(w.queue)
  {
    if MayProcess(w, done) {
      ProcessTurn(w, answers, k, done);
      TurnFrame(w, answers(k));
      ProcessFrame(Turn(w, answers(k)), answers, k + 1, if Succeeds(Next(w), answers(k)) then done + 1 else done);
    } else {
      ProcessStops(w, answers, k, done);
    }
  }

  // ----- What becomes of a queued request -----

  /** All attempts a granted request was worth have been made. */
  ghost predicate Spent(log: Log, h: Text) {
    h in log.tries && h in log.granted && log.tries[h] == Max(1, log.granted[h].priority)
  }

  ghost predicate Accounted(w: World, h: Text) {
    Handled(w, h) || Spent(w.log, h)
  }

  lemma TurnAccounts(w: World, a: Answer, h: Text)
    requires Inv(w) && w.queue != [] && Accounted(w, h)
    ensures Accounted(Turn(w, a), h)
  {
    TakenFacts(w);
    TakenFrame(w);
    if h == Next(w).hash {
      if !Succeeds(Next(w), a) && Next(w).priority > 1 { RequeueFrame(w); }
    } else if !Handled(w, h) {
      assert Spent(w.log, h) && Spent(Turn(w, a).log, h);
    } else {
      TurnFrame(w, a);
      if h !in w.active && !Succeeds(Next(w), a) && Next(w).priority > 1 { RequeueFrame(w); }
    }
  }

  /** No request leaves the queue unaccounted for: it is still queued, or active, or has used up its
      attempts; and those given up are counted as failures, one each. */
  lemma {:induction false} ProcessAccounts(w: World, answers: Answers, k: nat, done: nat, h: Text)
    requires Inv(w) && Accounted(w, h)
    ensures
      var w' := Process(w, answers, k, done);
      Accounted(w', h) && w'.failure - w.failure == |w.queue| - |w'.queue| - (w'.totalProcessed - w.totalProcessed)
    decreases Work(w.queue)
  {
    if MayProcess(w, done) {
      var u := Turn(w, answers(k));
      ProcessTurn(w, answers, k, done);
      TurnAccounts(w, answers(k), h);
      TurnKeepsInv(w, answers(k));
      TurnCounts(w, answers(k));
      ProcessAccounts(u, answers, k + 1, if Succeeds(Next(w), answers(k)) then done + 1 else done, h);
    } else {
      ProcessStops(w, answers, k, done);
    }
  }

  lemma TurnCounts(w: World, a: Answer)
    requires Inv(w) && w.queue != []
    ensures var u := Turn(w, a);
      u.failure - w.failure == |w.queue| - |u.queue| - (u.totalProcessed - w.totalProcessed)
  {
    RequeueFrame(w);
  }

  // ----- The calls -----

  /** A request is ignored without a session or while its hash is queued or active; otherwise it is counted,
      and afterwards it is queued, active, or has failed as often as its priority allows. */
  lemma RequestExactly(w: World, e: Entry, answers: Answers)
    requires Inv(w)
    ensures
      var w' := DownloaderRuns.Step(w, Request(e, answers));
      if !w.session || e.hash in w.active || e.hash in Hashes(w.queue) then w' == w
      else w'.totalQueued == w.totalQueued + 1 && Accounted(w', e.hash) && Framed(Admitted(w, e), w')
  {
    if w.session && !Handled(w, e.hash) {
      var u := Admitted(w, e);
      AdmittedKeepsInv(w, e);
      assert e in u.queue && Handled(u, e.hash);
      ProcessAccounts(u, answers, 0, 0, e.hash);
      ProcessFrame(u, answers, 0, 0);
    }
  }

  /** Receipt ends exactly the request it names, and counts one success whether or not there was one. */
  lemma ReceiptExactly(w: World, h: Text, answers: Answers)
    requires Inv(w)
    ensures
      var w' := DownloaderRuns.Step(w, Receipt(h, answers));
      && w'.success == w.success + 1 && w'.timeouts == w.timeouts
      && (h in w.active ==> h !in w'.active && h !in Hashes(w'.queue))
      && (forall g :: g in w.active && g != h ==> g in w'.active && w'.active[g] == w.active[g])
      && w'.active.Keys <= w.active.Keys + Hashes(w.queue)
  {
    ReceivedKeepsInv(w, h);
    ProcessFrame(Received(w, h), answers, 0, 0);
    EndsExactly(w, {h}, Received(w, h), Process(Received(w, h), answers, 0, 0));
  }

  /** The requests taken out of the active ones before a round are the only ones to end. */
  lemma EndsExactly(w: World, gone: set<Text>, u: World, w': World)
    requires Exclusive(w) && u.active == w.active - gone && u.queue == w.queue && Framed(u, w')
    ensures forall h :: h in gone && h in w.active ==> h !in w'.active && h !in Hashes(w'.queue)
    ensures forall h :: h in w.active && h !in gone ==> h in w'.active && w'.active[h] == w.active[h]
    ensures w'.active.Keys <= w.active.Keys + Hashes(w.queue)
  {
    forall h | h in w.active ensures h !in Hashes(w.queue) {
    }
    forall h | h in gone && h in w.active ensures h !in w'.active && h !in Hashes(w'.queue) {
      assert h !in u.active.Keys + Hashes(u.queue);
    }
    forall h | h in w.active && h !in gone ensures h in w'.active && w'.active[h] == w.active[h] {
      assert h in u.active;
    }
  }

  /** Old enough: at least the timeout, or for a timeout of zero or less a second past one below it. */
  predicate Aged(age: int, timeoutSec: int) {
    if timeoutSec > 0 then age >= Seconds(timeoutSec) else age > Seconds(timeoutSec - 1)
  }

  lemma TimedOutIsAged(i: Info, now: int, timeoutSec: int)
    ensures TimedOut(i, now, timeoutSec) <==> Aged(now - i.requestTime, timeoutSec)
  {
    TruncatedSeconds(now - i.requestTime, timeoutSec);
  }

  lemma TruncatedSeconds(age: int, k: int)
    ensures WholeSeconds(age) >= k <==> Aged(age, k)
  {
  }

  /** Clean-up ends exactly the active requests that are old enough, and counts each. */
  lemma CleanupExactly(w: World, now: int, answers: Answers)
    requires Inv(w)
    ensures
      var w' := DownloaderRuns.Step(w, Cleanup(now, answers));
      var aged := set h | h in w.active && Aged(now - w.active[h].requestTime, w.timeoutSec);
      && w'.timeouts == w.timeouts + |aged| && w'.success == w.success
      && (forall h :: h in aged ==> h !in w'.active && h !in Hashes(w'.queue))
      && (forall h :: h in w.active && h !in aged ==> h in w'.active && w'.active[h] == w.active[h])
      && w'.active.Keys <= w.active.Keys + Hashes(w.queue)
      && (aged == {} ==> w' == w)
  {
    var aged := set h | h in w.active && Aged(now - w.active[h].requestTime, w.timeoutSec);
    forall h | h in w.active ensures h in aged <==> h in Expired(w, now) {
      TimedOutIsAged(w.active[h], now, w.timeoutSec);
    }
    assert aged == Expired(w, now);
    if aged != {} {
      SweptKeepsInv(w, aged);
      ProcessFrame(Swept(w, aged), answers, 0, 0);
      EndsExactly(w, aged, Swept(w, aged), Process(Swept(w, aged), answers, 0, 0));
    }
  }

  /** The limit rises by 100, up to 1000, with more than 2000 queued and at least ten successes for every
      timeout and ten more; it falls by 50, down to 200, otherwise, with fewer than five successes for every
      timeout; and else it stays. */
  lemma AdjustExactly(w: World)
    ensures
      var limit' := DownloaderRuns.Step(w, Adjust).limit;
      var rise, fall := |w.queue| > 2000 && w.success >= 10 * w.timeouts + 10, w.success < 5 * w.timeouts;
      && (rise && w.limit < 1000 ==> limit' == Min(w.limit + 100, 1000))
      && (!rise && fall && w.limit > 200 ==> limit' == Max(w.limit - 50, 200))
      && (!(rise && w.limit < 1000) && !(!rise && fall && w.limit > 200) ==> limit' == w.limit)
  {
  }
}
