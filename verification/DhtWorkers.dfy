/** The concurrent query generators (`ConcurrentDHTManager`) as interleaved atomic steps, with stop and
    restart. */
module DhtWorkers {
  import opened Wrappers
  import opened Sequences
  import opened Totals

  type Hash = string

  /** A worker thread between two steps; `i` counts the queries of the current round. */
  datatype Worker =
    | Spawned
    | LoopCheck
    | ForCheck(i: nat)
    | Drawing(i: nat)
    | Inserted(i: nat, hash: Hash)
    | Sending(i: nat, hash: Hash)
    | Leaving
    | Done

  /** The thread that calls `start` and `stop`. */
  datatype Controller = Idle | Starting(spawned: nat) | Up | Joining

  datatype Manager = Manager(
    size: nat,
    running: bool,
    stopRequested: bool,
    controller: Controller,
    workers: seq<Worker>,
    queried: set<Hash>,
    generated: nat,
    sent: nat,
    workerCount: int,
    issued: seq<Hash>,
    refusedSends: nat)

  const QUERIES_PER_ITERATION := 5

  datatype Step =
    | Start
    | Spawn
    | RequestStop
    | Join
    | Enter(worker: nat)
    | CheckLoop(worker: nat)
    | CheckFor(worker: nat)
    | Draw(worker: nat, hash: Hash)
    | CountGenerated(worker: nat)
    | Send(worker: nat, ok: bool)
    | Leave(worker: nat)

  predicate GoesOn(s: Manager) {
    s.running && !s.stopRequested
  }

  predicate Enabled(s: Manager, e: Step) {
    match e
    case Start => s.controller.Idle?
    case Spawn => s.controller.Starting?
    case RequestStop => s.controller.Up?
    case Join => s.controller.Joining? && forall w :: 0 <= w < |s.workers| ==> s.workers[w].Done?
    case Enter(w) => w < |s.workers| && s.workers[w].Spawned?
    case CheckLoop(w) => w < |s.workers| && s.workers[w].LoopCheck?
    case CheckFor(w) => w < |s.workers| && s.workers[w].ForCheck?
    case Draw(w, _) => w < |s.workers| && s.workers[w].Drawing?
    case CountGenerated(w) => w < |s.workers| && s.workers[w].Inserted?
    case Send(w, _) => w < |s.workers| && s.workers[w].Sending?
    case Leave(w) => w < |s.workers| && s.workers[w].Leaving?
  }

  function Move(s: Manager, w: nat, x: Worker): Manager
    requires w < |s.workers|
  {
    s.(workers := s.workers[w := x])
  }

  function Apply(s: Manager, e: Step): Manager
    requires Enabled(s, e)
  {
    match e
    case Start => s.(running := true, stopRequested := false, controller := Starting(0))
    case Spawn =>
      if s.controller.spawned < s.size then
        s.(workers := s.workers + [Spawned], controller := Starting(s.controller.spawned + 1))
      else s.(controller := Up)
    case RequestStop => s.(stopRequested := true, controller := Joining)
    case Join => s.(workers := [], running := false, controller := Idle)
    case Enter(w) => Move(s, w, LoopCheck).(workerCount := s.workerCount + 1)
    case CheckLoop(w) => Move(s, w, if GoesOn(s) then ForCheck(0) else Leaving)
    case CheckFor(w) =>
      var i := s.workers[w].i;
      Move(s, w, if i < QUERIES_PER_ITERATION && GoesOn(s) then Drawing(i) else LoopCheck)
    case Draw(w, h) =>
      var i := s.workers[w].i;
      if h in s.queried then Move(s, w, ForCheck(i + 1))
      else Move(s, w, Inserted(i, h)).(queried := s.queried + {h})
    case CountGenerated(w) =>
      Move(s, w, Sending(s.workers[w].i, s.workers[w].hash)).(generated := s.generated + 1)
    case Send(w, ok) =>
      Move(s, w, ForCheck(s.workers[w].i + 1)).(
        issued := s.issued + [s.workers[w].hash],
        sent := s.sent + (if ok then 2 else 0),
        refusedSends := s.refusedSends + (if ok then 0 else 1))
    case Leave(w) => Move(s, w, Done).(workerCount := s.workerCount - 1)
  }

  function Fresh(size: nat): Manager {
    Manager(size, false, false, Idle, [], {}, 0, 0, 0, [], 0)
  }

  function Run(s: Manager, steps: seq<Step>): Option<Manager> {
    if steps == [] then Some(s)
    else
      var before := Run(s, steps[..|steps| - 1]);
      var e := steps[|steps| - 1];
      if before.Some? && Enabled(before.value, e) then Some(Apply(before.value, e)) else None
  }

  // ----- Counting workers -----

  ghost function Inside(w: Worker): nat {
    if w.Spawned? || w.Done? then 0 else 1
  }

  ghost function AtInserted(w: Worker): nat {
    if w.Inserted? then 1 else 0
  }

  ghost function AtSending(w: Worker): nat {
    if w.Sending? then 1 else 0
  }

  /** Past its last look at the stop flag, with one query still to come. */
  ghost function Committed(w: Worker): nat {
    if w.Drawing? || w.Inserted? || w.Sending? then 1 else 0
  }

  ghost function Count(workers: seq<Worker>, f: Worker -> nat): nat {
    Total(seq(|workers|, i requires 0 <= i < |workers| => f(workers[i])))
  }

  lemma CountMove(workers: seq<Worker>, w: nat, x: Worker, f: Worker -> nat)
    requires w < |workers|
    ensures Count(workers[w := x], f) + f(workers[w]) == Count(workers, f) + f(x)
  {
    var ns := seq(|workers|, i requires 0 <= i < |workers| => f(workers[i]));
    TotalUpdate(ns, w, f(x));
    assert seq(|workers|, i requires 0 <= i < |workers| => f(workers[w := x][i])) == ns[w := f(x)];
  }

  lemma CountAppend(workers: seq<Worker>, x: Worker, f: Worker -> nat)
    ensures Count(workers + [x], f) == Count(workers, f) + f(x)
  {
    var ns := seq(|workers|, i requires 0 <= i < |workers| => f(workers[i]));
    TotalAppend(ns, f(x));
    assert seq(|workers| + 1, i requires 0 <= i < |workers| + 1 => f((workers + [x])[i])) == ns + [f(x)];
  }

  lemma CountZero(workers: seq<Worker>, f: Worker -> nat)
    requires forall i :: 0 <= i < |workers| ==> f(workers[i]) == 0
    ensures Count(workers, f) == 0
  {
    TotalZero(seq(|workers|, i requires 0 <= i < |workers| => f(workers[i])));
  }

  lemma {:induction false} CountAtMost(workers: seq<Worker>, f: Worker -> nat)
    requires forall w :: f(w) <= 1
    ensures Count(workers, f) <= |workers|
  {
    if workers != [] {
      var n := |workers| - 1;
      CountAtMost(workers[..n], f);
      CountAppend(workers[..n], workers[n], f);
      assert workers == workers[..n] + [workers[n]];
    }
  }

  // ----- The invariant -----

  ghost predicate Balanced(s: Manager) {
    && |s.queried| == s.generated + Count(s.workers, AtInserted)
    && s.generated == |s.issued| + Count(s.workers, AtSending)
    && s.sent + 2 * s.refusedSends == 2 * |s.issued|
    && s.workerCount == Count(s.workers, Inside)
  }

  ghost predicate InFlight(w: Worker) {
    w.Inserted? || w.Sending?
  }

  /** Issued and in-flight hashes are all different, and all recorded as queried. */
  ghost predicate AllDifferent(s: Manager) {
    && NoRepeats(s.issued)
    && (forall h :: h in s.issued ==> h in s.queried)
    && (forall w :: 0 <= w < |s.workers| && InFlight(s.workers[w]) ==>
          s.workers[w].hash in s.queried && s.workers[w].hash !in s.issued)
    && (forall w, v :: 0 <= w < v < |s.workers| && InFlight(s.workers[w]) && InFlight(s.workers[v]) ==>
          s.workers[w].hash != s.workers[v].hash)
  }

  ghost predicate Controlled(s: Manager) {
    && (s.running <==> !s.controller.Idle?)
    && match s.controller
       case Idle => s.workers == []
       case Starting(k) => |s.workers| == k <= s.size && !s.stopRequested
       case Up => |s.workers| == s.size && !s.stopRequested
       case Joining => |s.workers| == s.size && s.stopRequested
  }

  ghost predicate Inv(s: Manager) {
    Balanced(s) && AllDifferent(s) && Controlled(s)
  }

  lemma WorkerStepCounts(s: Manager, e: Step)
    requires Enabled(s, e) && !e.Start? && !e.Spawn? && !e.RequestStop? && !e.Join?
    ensures
      var w, x := e.worker, Apply(s, e).workers[e.worker];
      && Apply(s, e).workers == s.workers[w := x]
      && Count(Apply(s, e).workers, AtInserted) + AtInserted(s.workers[w]) == Count(s.workers, AtInserted) + AtInserted(x)
      && Count(Apply(s, e).workers, AtSending) + AtSending(s.workers[w]) == Count(s.workers, AtSending) + AtSending(x)
      && Count(Apply(s, e).workers, Inside) + Inside(s.workers[w]) == Count(s.workers, Inside) + Inside(x)
  {
    var w, x := e.worker, Apply(s, e).workers[e.worker];
    CountMove(s.workers, w, x, AtInserted);
    CountMove(s.workers, w, x, AtSending);
    CountMove(s.workers, w, x, Inside);
  }

  lemma StepKeepsBalanced(s: Manager, e: Step)
    requires Inv(s) && Enabled(s, e)
    ensures Balanced(Apply(s, e))
  {
    if e.Start? || e.Spawn? || e.RequestStop? || e.Join? {
      ControlKeepsBalanced(s, e);
    } else {
      WorkerKeepsBalanced(s, e);
    }
  }

  lemma ControlKeepsBalanced(s: Manager, e: Step)
    requires Balanced(s) && Controlled(s) && Enabled(s, e) && (e.Start? || e.Spawn? || e.RequestStop? || e.Join?)
    ensures Balanced(Apply(s, e))
  {
    if e.Spawn? {
      CountAppend(s.workers, Spawned, AtInserted);
      CountAppend(s.workers, Spawned, AtSending);
      CountAppend(s.workers, Spawned, Inside);
    } else if e.Join? {
      CountZero(s.workers, AtInserted);
      CountZero(s.workers, AtSending);
      CountZero(s.workers, Inside);
    }
  }

  lemma WorkerKeepsBalanced(s: Manager, e: Step)
    requires Balanced(s) && Enabled(s, e) && !e.Start? && !e.Spawn? && !e.RequestStop? && !e.Join?
    ensures Balanced(Apply(s, e))
  {
    WorkerStepCounts(s, e);
  }

  /** A worker moves on, keeping its hash or taking one never queried before. */
  lemma MoveKeepsDifferent(s: Manager, s': Manager, w: nat, x: Worker)
    requires AllDifferent(s) && w < |s.workers| && s'.workers == s.workers[w := x]
    requires s'.issued == s.issued && s.queried <= s'.queried
    requires InFlight(x) ==>
      || (InFlight(s.workers[w]) && x.hash == s.workers[w].hash)
      || (x.hash !in s.queried && x.hash in s'.queried)
    ensures AllDifferent(s')
  {
    forall v | 0 <= v < |s.workers| && v != w && InFlight(s.workers[v]) && InFlight(x)
      ensures s.workers[v].hash != x.hash
    {
      if InFlight(s.workers[w]) && x.hash == s.workers[w].hash {
        if v < w {
          assert s.workers[v].hash != s.workers[w].hash;
        } else {
          assert s.workers[w].hash != s.workers[v].hash;
        }
      }
    }
  }

  lemma SendKeepsDifferent(s: Manager, w: nat, ok: bool)
    requires AllDifferent(s) && Enabled(s, Send(w, ok))
    ensures AllDifferent(Apply(s, Send(w, ok)))
  {
    var s' := Apply(s, Send(w, ok));
    var h := s.workers[w].hash;
    assert InFlight(s.workers[w]) && h !in s.issued;
    forall v | 0 <= v < |s'.workers| && InFlight(s'.workers[v])
      ensures s'.workers[v].hash in s'.queried && s'.workers[v].hash !in s'.issued
    {
      assert v != w && s'.workers[v] == s.workers[v];
    }
  }

  lemma StepKeepsDifferent(s: Manager, e: Step)
    requires Inv(s) && Enabled(s, e)
    ensures AllDifferent(Apply(s, e))
  {
    if e.Send? {
      SendKeepsDifferent(s, e.worker, e.ok);
    } else if !e.Start? && !e.Spawn? && !e.RequestStop? && !e.Join? {
      MoveKeepsDifferent(s, Apply(s, e), e.worker, Apply(s, e).workers[e.worker]);
    }
  }

  lemma StepKeepsControlled(s: Manager, e: Step)
    requires Inv(s) && Enabled(s, e)
    ensures Controlled(Apply(s, e)) && Apply(s, e).size == s.size
  {
  }

  lemma StepKeepsInv(s: Manager, e: Step)
    requires Inv(s) && Enabled(s, e)
    ensures Inv(Apply(s, e)) && Apply(s, e).size == s.size
  {
    StepKeepsBalanced(s, e);
    StepKeepsDifferent(s, e);
    StepKeepsControlled(s, e);
  }

  /** In every reachable state of every interleaving. */
  lemma {:induction false} ReachableInv(size: nat, steps: seq<Step>)
    ensures var r := Run(Fresh(size), steps); r.Some? ==> Inv(r.value) && r.value.size == size
  {
    if steps != [] {
      var k := |steps| - 1;
      ReachableInv(size, steps[..k]);
      var before := Run(Fresh(size), steps[..k]);
      if before.Some? && Enabled(before.value, steps[k]) {
        StepKeepsInv(before.value, steps[k]);
      }
    }
  }

  /** No hash is issued twice, over any number of restarts; the counters bound each other; and once
      `stop` has joined its workers, none is counted. */
  lemma ReachableGuarantees(size: nat, steps: seq<Step>)
    requires Run(Fresh(size), steps).Some?
    ensures
      var s := Run(Fresh(size), steps).value;
      && NoRepeats(s.issued)
      && s.generated <= |s.queried| <= s.generated + size
      && s.sent % 2 == 0 && s.sent <= 2 * s.generated
      && (s.controller.Idle? ==> s.workerCount == 0)
      && s.workerCount <= size
  {
    ReachableInv(size, steps);
    InvGuarantees(Run(Fresh(size), steps).value);
  }

  lemma InvGuarantees(s: Manager)
    requires Inv(s)
    ensures s.generated <= |s.queried| <= s.generated + s.size
    ensures s.sent % 2 == 0 && s.sent <= 2 * s.generated
    ensures (s.controller.Idle? ==> s.workerCount == 0) && s.workerCount <= s.size
  {
    CountAtMost(s.workers, AtInserted);
    CountAtMost(s.workers, Inside);
  }

  /** Once stop is requested, each worker completes at most the query it is committed to. */
  lemma {:induction false} StopBoundsIssues(s: Manager, steps: seq<Step>)
    requires Inv(s) && s.stopRequested && Run(s, steps).Some?
    requires forall i :: 0 <= i < |steps| ==> !steps[i].Start?
    ensures
      var r := Run(s, steps).value;
      && Inv(r) && r.stopRequested
      && |r.issued| + Count(r.workers, Committed) <= |s.issued| + Count(s.workers, Committed)
  {
    if steps != [] {
      var k := |steps| - 1;
      StopBoundsIssues(s, steps[..k]);
      var u := Run(s, steps[..k]).value;
      StepKeepsInv(u, steps[k]);
      StepAfterStop(u, steps[k]);
    }
  }

  /** With stop requested, no step adds to what is issued or committed to be issued. */
  lemma StepAfterStop(s: Manager, e: Step)
    requires Controlled(s) && Enabled(s, e) && s.stopRequested && !e.Start?
    ensures var r := Apply(s, e);
      r.stopRequested && |r.issued| + Count(r.workers, Committed) <= |s.issued| + Count(s.workers, Committed)
  {
    if e.Join? {
      CountZero(s.workers, Committed);
    } else if !e.Spawn? && !e.RequestStop? {
      CountMove(s.workers, e.worker, Apply(s, e).workers[e.worker], Committed);
    }
  }

  lemma AtMostOneMoreEach(s: Manager, steps: seq<Step>)
    requires Inv(s) && s.stopRequested && Run(s, steps).Some?
    requires forall i :: 0 <= i < |steps| ==> !steps[i].Start?
    ensures |Run(s, steps).value.issued| <= |s.issued| + s.size
  {
    StopBoundsIssues(s, steps);
    CountAtMost(s.workers, Committed);
  }
}
