/** What the worker pool does with each request, told by the history of steps: requests are taken in the
    order they were accepted, and what is pending is what was tracked and has not left since. */
module WorkerPoolHistory {
  import opened Wrappers
  import opened WorkerPool

  ghost predicate Possible(n: nat, timeout: int, steps: seq<Step>) {
    Run(n, timeout, steps).Some?
  }

  ghost function At(n: nat, timeout: int, steps: seq<Step>): Pool
    requires Possible(n, timeout, steps)
  {
    Run(n, timeout, steps).value
  }

  /** Every prefix of a possible run is one, and the last step leads from it to the whole. */
  lemma LastStep(n: nat, timeout: int, steps: seq<Step>)
    requires Possible(n, timeout, steps) && steps != []
    ensures
      var k := |steps| - 1;
      && Possible(n, timeout, steps[..k]) && Enabled(At(n, timeout, steps[..k]), steps[k])
      && At(n, timeout, steps) == Apply(At(n, timeout, steps[..k]), steps[k])
  {
  }

  // ----- Callers -----

  /** The hashes passed to `queue_request`, call by call. */
  ghost function Calls(steps: seq<Step>): seq<Hash> {
    if steps == [] then []
    else Calls(steps[..|steps| - 1]) + (if steps[|steps| - 1].Call? then [steps[|steps| - 1].hash] else [])
  }

  /** The hash a call still works on. */
  ghost function CallerHash(c: Caller): Option<Hash> {
    match c
    case Entered(h) => Some(h)
    case Open(h) => Some(h)
    case Checked(h) => Some(h)
    case _ => None
  }

  ghost predicate CallersMatch(s: Pool, calls: seq<Hash>) {
    && |s.callers| == |calls|
    && forall i :: 0 <= i < |calls| && CallerHash(s.callers[i]).Some? ==> CallerHash(s.callers[i]) == Some(calls[i])
  }

  lemma {:induction false} CallersKeepHashes(n: nat, timeout: int, steps: seq<Step>)
    requires Possible(n, timeout, steps)
    ensures CallersMatch(At(n, timeout, steps), Calls(steps))
  {
    if steps != [] {
      LastStep(n, timeout, steps);
      CallersKeepHashes(n, timeout, steps[..|steps| - 1]);
      CallerStep(At(n, timeout, steps[..|steps| - 1]), steps[|steps| - 1], Calls(steps[..|steps| - 1]));
    }
  }

  lemma CallerStep(s: Pool, e: Step, calls: seq<Hash>)
    requires Enabled(s, e) && CallersMatch(s, calls)
    ensures CallersMatch(Apply(s, e), calls + if e.Call? then [e.hash] else [])
  {
    assert calls + [] == calls;
  }

  /** Call `i` passed the check for a pending request at step `j`. */
  ghost predicate PassedAt(n: nat, timeout: int, steps: seq<Step>, i: nat, j: nat) {
    && j < |steps| && Possible(n, timeout, steps[..j]) && steps[j] == CheckPending(i)
    && i < |Calls(steps[..j])| && Calls(steps[..j])[i] !in At(n, timeout, steps[..j]).pending
  }

  lemma PassedGrows(n: nat, timeout: int, steps: seq<Step>, i: nat, j: nat)
    requires steps != [] && PassedAt(n, timeout, steps[..|steps| - 1], i, j)
    ensures PassedAt(n, timeout, steps, i, j)
  {
    assert steps[..|steps| - 1][..j] == steps[..j];
  }

  /** A call gets as far as the queue only after a check that found its hash not pending. */
  lemma {:induction false} CheckedBeforeQueued(n: nat, timeout: int, steps: seq<Step>, i: nat)
    requires Possible(n, timeout, steps) && i < |At(n, timeout, steps).callers|
    requires At(n, timeout, steps).callers[i].Checked? || At(n, timeout, steps).callers[i].Queued?
    ensures exists j: nat :: PassedAt(n, timeout, steps, i, j)
  {
    var k := |steps| - 1;
    LastStep(n, timeout, steps);
    var s, e := At(n, timeout, steps[..k]), steps[k];
    CallersKeepHashes(n, timeout, steps[..k]);
    if i < |s.callers| && (s.callers[i].Checked? || s.callers[i].Queued?) {
      CheckedBeforeQueued(n, timeout, steps[..k], i);
      var j: nat :| PassedAt(n, timeout, steps[..k], i, j);
      PassedGrows(n, timeout, steps, i, j);
    } else {
      assert e == CheckPending(i) && CallerHash(s.callers[i]) == Some(Calls(steps[..k])[i]);
      assert PassedAt(n, timeout, steps, i, k);
    }
  }

  // ----- First in, first out -----

  /** The hashes accepted into the queue, in order: each call's own hash, at its `Enqueue` step. */
  ghost function Accepted(steps: seq<Step>): seq<Hash> {
    if steps == [] then []
    else
      var k := |steps| - 1;
      var calls := Calls(steps[..k]);
      Accepted(steps[..k]) +
      (if steps[k].Enqueue? && steps[k].caller < |calls| then [calls[steps[k].caller]] else [])
  }

  /** The hashes handed to workers, in order: what a worker holds after its `Take` step. */
  ghost function Handed(n: nat, timeout: int, steps: seq<Step>): seq<Hash>
    requires Possible(n, timeout, steps)
  {
    if steps == [] then []
    else
      LastStep(n, timeout, steps);
      Handed(n, timeout, steps[..|steps| - 1]) + HandedBy(At(n, timeout, steps), steps[|steps| - 1])
  }

  ghost function HandedBy(after: Pool, e: Step): seq<Hash> {
    if e.Take? && e.worker < |after.workers| && after.workers[e.worker].Holding? then [after.workers[e.worker].hash]
    else []
  }

  /** Requests reach the workers in exactly the order they were accepted; the rest waits in the queue. */
  lemma {:induction false} FirstInFirstOut(n: nat, timeout: int, steps: seq<Step>)
    requires Possible(n, timeout, steps)
    ensures Handed(n, timeout, steps) + At(n, timeout, steps).queue == Accepted(steps)
  {
    if steps != [] {
      var k := |steps| - 1;
      LastStep(n, timeout, steps);
      FirstInFirstOut(n, timeout, steps[..k]);
      CallersKeepHashes(n, timeout, steps[..k]);
      QueueStep(At(n, timeout, steps[..k]), steps[k], Handed(n, timeout, steps[..k]), Calls(steps[..k]));
    }
  }

  lemma QueueStep(s: Pool, e: Step, handed: seq<Hash>, calls: seq<Hash>)
    requires Enabled(s, e) && CallersMatch(s, calls)
    ensures
      var s' := Apply(s, e);
      handed + HandedBy(s', e) + s'.queue ==
      handed + s.queue + (if e.Enqueue? && e.caller < |calls| then [calls[e.caller]] else [])
  {
    var s' := Apply(s, e);
    if e.Take? {
      if s.phase == Running && s.queue != [] {
        assert s.queue == [s.queue[0]] + s.queue[1..];
        assert s'.workers[e.worker] == Holding(s.queue[0]);
      }
    } else if e.Enqueue? {
      assert CallerHash(s.callers[e.caller]) == Some(calls[e.caller]);
    }
  }

  /** The request a worker has in its hands. */
  ghost function InHand(w: Worker): Option<Hash> {
    match w
    case Holding(h) => Some(h)
    case Tracked(h) => Some(h)
    case Counted(h) => Some(h)
    case _ => None
  }

  ghost predicate Traced(s: Pool, handed: seq<Hash>) {
    && (forall w :: 0 <= w < |s.workers| && InHand(s.workers[w]).Some? ==> InHand(s.workers[w]).value in handed)
    && (forall h :: h in s.pending ==> h in handed)
  }

  lemma TraceStep(s: Pool, e: Step, handed: seq<Hash>)
    requires Enabled(s, e) && Traced(s, handed)
    ensures Traced(Apply(s, e), handed + HandedBy(Apply(s, e), e))
  {
    var s' := Apply(s, e);
    if e.Track? {
      assert InHand(s.workers[e.worker]) == Some(s.workers[e.worker].hash);
    }
    assert forall h :: h in s'.pending ==> h in s.pending || (e.Track? && h == s.workers[e.worker].hash);
  }

  /** Whatever a worker works on, and whatever is pending, was accepted by some call and handed over. */
  lemma {:induction false} OnlyQueuedIsProcessed(n: nat, timeout: int, steps: seq<Step>)
    requires Possible(n, timeout, steps)
    ensures Traced(At(n, timeout, steps), Handed(n, timeout, steps))
  {
    if steps != [] {
      var k := |steps| - 1;
      LastStep(n, timeout, steps);
      OnlyQueuedIsProcessed(n, timeout, steps[..k]);
      TraceStep(At(n, timeout, steps[..k]), steps[k], Handed(n, timeout, steps[..k]));
    }
  }

  // ----- What is pending -----

  /** Step `e` makes `h` pending from `time` on. */
  predicate Pends(s: Pool, e: Step, h: Hash, time: int) {
    e.Track? && e.worker < |s.workers| && s.workers[e.worker] == Holding(h) && e.now == time
  }

  /** Step `e` ends the entry of `h` tracked at `time`: receipt, a sweep or collection more than the timeout
      later, the end of the shutdown, or tracking `h` again. */
  predicate Unpends(s: Pool, timeout: int, e: Step, h: Hash, time: int) {
    match e
    case Receive(x) => x == h
    case SweepOut(now) => now - time > timeout
    case Collect(now) => now - time > timeout
    case Join => true
    case Track(w, _) => w < |s.workers| && s.workers[w] == Holding(h)
    case _ => false
  }

  ghost predicate BeganAt(n: nat, timeout: int, steps: seq<Step>, h: Hash, time: int, i: nat)
    requires i < |steps|
  {
    Possible(n, timeout, steps[..i]) && Pends(At(n, timeout, steps[..i]), steps[i], h, time)
  }

  ghost predicate EndedAt(n: nat, timeout: int, steps: seq<Step>, h: Hash, time: int, j: nat)
    requires j < |steps|
  {
    Possible(n, timeout, steps[..j]) && Unpends(At(n, timeout, steps[..j]), timeout, steps[j], h, time)
  }

  ghost predicate PendingSince(n: nat, timeout: int, steps: seq<Step>, h: Hash, time: int, i: nat) {
    && i < |steps| && BeganAt(n, timeout, steps, h, time, i)
    && forall j: nat :: i < j < |steps| ==> !EndedAt(n, timeout, steps, h, time, j)
  }

  ghost predicate IsPending(s: Pool, h: Hash, time: int) {
    h in s.pending && s.pending[h].time == time
  }

  lemma PendingStep(s: Pool, e: Step, h: Hash, time: int)
    requires Enabled(s, e)
    ensures IsPending(Apply(s, e), h, time) <==>
      Pends(s, e, h, time) || (IsPending(s, h, time) && !Unpends(s, s.timeout, e, h, time))
  {
  }

  lemma {:induction false} TimeoutFixed(n: nat, timeout: int, steps: seq<Step>)
    requires Possible(n, timeout, steps)
    ensures At(n, timeout, steps).timeout == timeout
  {
    if steps != [] {
      LastStep(n, timeout, steps);
      TimeoutFixed(n, timeout, steps[..|steps| - 1]);
    }
  }

  /** An entry is pending exactly when it was tracked and has since been neither received, swept or collected
      after its timeout, tracked again, nor cleared by shutdown. */
  lemma {:induction false} PendingExactly(n: nat, timeout: int, steps: seq<Step>, h: Hash, time: int)
    requires Possible(n, timeout, steps)
    ensures IsPending(At(n, timeout, steps), h, time) <==> exists i: nat :: PendingSince(n, timeout, steps, h, time, i)
  {
    if steps == [] {
      assert forall i: nat :: !PendingSince(n, timeout, steps, h, time, i);
    } else {
      var k := |steps| - 1;
      LastStep(n, timeout, steps);
      PendingExactly(n, timeout, steps[..k], h, time);
      TimeoutFixed(n, timeout, steps[..k]);
      PendingStep(At(n, timeout, steps[..k]), steps[k], h, time);
      SinceExtends(n, timeout, steps, h, time);
    }
  }

  lemma SinceExtends(n: nat, timeout: int, steps: seq<Step>, h: Hash, time: int)
    requires Possible(n, timeout, steps) && steps != []
    requires Possible(n, timeout, steps[..|steps| - 1])
    ensures
      var k := |steps| - 1;
      var s := At(n, timeout, steps[..k]);
      (exists i: nat :: PendingSince(n, timeout, steps, h, time, i)) <==>
      Pends(s, steps[k], h, time) ||
      ((exists i: nat :: PendingSince(n, timeout, steps[..k], h, time, i)) && !Unpends(s, timeout, steps[k], h, time))
  {
    var k := |steps| - 1;
    var s := At(n, timeout, steps[..k]);
    assert EndedAt(n, timeout, steps, h, time, k) <==> Unpends(s, timeout, steps[k], h, time);
    assert BeganAt(n, timeout, steps, h, time, k) <==> Pends(s, steps[k], h, time);
    forall i: nat | i < k
      ensures PendingSince(n, timeout, steps, h, time, i) <==>
        PendingSince(n, timeout, steps[..k], h, time, i) && !EndedAt(n, timeout, steps, h, time, k)
    {
      SinceStep(n, timeout, steps, h, time, i);
    }
    if Pends(s, steps[k], h, time) {
      assert PendingSince(n, timeout, steps, h, time, k);
    }
  }

  lemma SinceStep(n: nat, timeout: int, steps: seq<Step>, h: Hash, time: int, i: nat)
    requires i < |steps| - 1 && Possible(n, timeout, steps[..|steps| - 1])
    ensures
      var k := |steps| - 1;
      PendingSince(n, timeout, steps, h, time, i) <==>
        PendingSince(n, timeout, steps[..k], h, time, i) && !EndedAt(n, timeout, steps, h, time, k)
  {
    var k := |steps| - 1;
    SameBefore(n, timeout, steps, h, time, i);
    if PendingSince(n, timeout, steps, h, time, i) {
      forall j: nat | i < j < k ensures !EndedAt(n, timeout, steps[..k], h, time, j) {
        SameBefore(n, timeout, steps, h, time, j);
      }
    } else if PendingSince(n, timeout, steps[..k], h, time, i) && !EndedAt(n, timeout, steps, h, time, k) {
      forall j: nat | i < j < |steps| ensures !EndedAt(n, timeout, steps, h, time, j) {
        if j < k { SameBefore(n, timeout, steps, h, time, j); }
      }
    }
  }

  /** What happened at an earlier step does not depend on the last one. */
  lemma SameBefore(n: nat, timeout: int, steps: seq<Step>, h: Hash, time: int, j: nat)
    requires j < |steps| - 1
    ensures
      var front := steps[..|steps| - 1];
      && (BeganAt(n, timeout, front, h, time, j) <==> BeganAt(n, timeout, steps, h, time, j))
      && (EndedAt(n, timeout, front, h, time, j) <==> EndedAt(n, timeout, steps, h, time, j))
  {
    assert steps[..|steps| - 1][..j] == steps[..j];
  }

  // ----- Shutting down -----

  predicate StepOf(e: Step, w: nat) {
    match e
    case LoopTop(x) => x == w
    case Take(x) => x == w
    case Fail(x) => x == w
    case Track(x, _) => x == w
    case CountWorker(x) => x == w
    case CountTotal(x) => x == w
    case _ => false
  }

  /** A worker that has not stopped can take a step of its own, unless it waits on an empty queue of a
      running pool. */
  lemma WorkerNeverStuck(s: Pool, w: nat) returns (e: Step)
    requires Shape(s) && w < |s.workers| && !s.workers[w].Stopped?
    requires s.workers[w].Waiting? ==> s.queue != [] || s.phase != Running
    ensures StepOf(e, w) && Enabled(s, e)
  {
    match s.workers[w]
    case Top => e := LoopTop(w);
    case Waiting => e := Take(w);
    case Holding(_) => e := Fail(w);
    case Tracked(_) => e := CountWorker(w);
    case Counted(_) => e := CountTotal(w);
  }

  /** Own steps a worker can still take once shutdown has begun. */
  function StepsLeft(x: Worker): nat {
    match x
    case Holding(_) => 4
    case Tracked(_) => 3
    case Counted(_) => 2
    case Waiting => 2
    case Top => 1
    case Stopped => 0
  }

  /** Once shutdown has begun each worker stops within four steps of its own: it finishes the request it
      holds and takes no other, so `shutdown` can join it. */
  lemma ShutdownFinishes(s: Pool, e: Step, w: nat)
    requires s.phase != Running && Enabled(s, e) && w < |s.workers|
    ensures StepsLeft(s.workers[w]) <= 4 && (StepsLeft(s.workers[w]) == 0 <==> s.workers[w].Stopped?)
    ensures StepOf(e, w) ==> StepsLeft(Apply(s, e).workers[w]) < StepsLeft(s.workers[w])
    ensures !StepOf(e, w) ==> Apply(s, e).workers[w] == s.workers[w]
    ensures Apply(s, e).phase != Running
  {
  }

  // ----- Who counts what -----

  /** Each worker's own counters count its own failures and its own requests. */
  lemma {:induction false} WorkersCountTheirOwn(n: nat, timeout: int, steps: seq<Step>, w: nat)
    requires Possible(n, timeout, steps) && w < n
    ensures
      var s := At(n, timeout, steps);
      && |s.stats| == n
      && s.stats[w].failed == multiset(steps)[Fail(w)] && s.stats[w].processed == multiset(steps)[CountWorker(w)]
  {
    if steps != [] {
      var k := |steps| - 1;
      LastStep(n, timeout, steps);
      WorkersCountTheirOwn(n, timeout, steps[..k], w);
      StatsStep(At(n, timeout, steps[..k]), steps[k], w);
      OneMore(steps, Fail(w));
      OneMore(steps, CountWorker(w));
    }
  }

  lemma StatsStep(s: Pool, e: Step, w: nat)
    requires Enabled(s, e) && w < |s.stats|
    ensures
      var s' := Apply(s, e);
      && |s'.stats| == |s.stats|
      && s'.stats[w].failed == s.stats[w].failed + (if e == Fail(w) then 1 else 0)
      && s'.stats[w].processed == s.stats[w].processed + (if e == CountWorker(w) then 1 else 0)
  {
  }

  lemma OneMore(steps: seq<Step>, e: Step)
    requires steps != []
    ensures multiset(steps)[e] == multiset(steps[..|steps| - 1])[e] + if steps[|steps| - 1] == e then 1 else 0
  {
    assert steps == steps[..|steps| - 1] + [steps[|steps| - 1]];
  }

  /** Every call that was refused found the pool stopping; every one told "already active" found its hash
      pending. */
  lemma RefusalStep(s: Pool, i: nat, e: Step)
    requires Enabled(s, e) && i < |s.callers|
    ensures var c, c' := s.callers[i], Apply(s, e).callers[i];
      && (c'.Refused? && !c.Refused? <==> e == CheckShutdown(i) && s.phase != Running)
      && (c'.Duplicate? && !c.Duplicate? <==> e == CheckPending(i) && c.hash in s.pending)
      && (c'.Queued? && !c.Queued? <==> e == Enqueue(i))
  {
  }
}
