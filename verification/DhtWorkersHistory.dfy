/** What the query generators do with each hash they draw, told by the history of steps. */
module DhtWorkersHistory {
  import opened Wrappers
  import opened DhtWorkers

  ghost predicate Possible(size: nat, steps: seq<Step>) {
    Run(Fresh(size), steps).Some?
  }

  ghost function At(size: nat, steps: seq<Step>): Manager
    requires Possible(size, steps)
  {
    Run(Fresh(size), steps).value
  }

  lemma LastStep(size: nat, steps: seq<Step>)
    requires Possible(size, steps) && steps != []
    ensures
      var k := |steps| - 1;
      && Possible(size, steps[..k]) && Enabled(At(size, steps[..k]), steps[k])
      && At(size, steps) == Apply(At(size, steps[..k]), steps[k])
  {
  }

  // ----- Every hash drawn is issued -----

  ghost predicate Drawn(steps: seq<Step>, h: Hash) {
    exists w: nat :: Draw(w, h) in steps
  }

  lemma DrawnStep(steps: seq<Step>, h: Hash)
    requires steps != []
    ensures var k := |steps| - 1;
      Drawn(steps, h) <==> Drawn(steps[..k], h) || (steps[k].Draw? && steps[k].hash == h)
  {
    var k := |steps| - 1;
    assert steps == steps[..k] + [steps[k]];
    if w: nat :| Draw(w, h) in steps {
      assert Draw(w, h) in steps[..k] || Draw(w, h) == steps[k];
    }
    if steps[k].Draw? && steps[k].hash == h {
      assert Draw(steps[k].worker, h) in steps;
    }
    if w: nat :| Draw(w, h) in steps[..k] {
      assert Draw(w, h) in steps;
    }
  }

  /** The hash is between its insertion and its query in some worker's hands. */
  ghost predicate OnItsWay(s: Manager, h: Hash) {
    exists w :: 0 <= w < |s.workers| && InFlight(s.workers[w]) && s.workers[w].hash == h
  }

  ghost predicate Served(s: Manager, h: Hash) {
    h in s.queried ==> h in s.issued || OnItsWay(s, h)
  }

  lemma ServedStep(s: Manager, e: Step, h: Hash)
    requires Inv(s) && Enabled(s, e) && Served(s, h)
    ensures Served(Apply(s, e), h)
    ensures h in Apply(s, e).queried <==> h in s.queried || (e.Draw? && e.hash == h)
  {
    var s' := Apply(s, e);
    if h in s.queried && h !in s.issued {
      var w :| 0 <= w < |s.workers| && InFlight(s.workers[w]) && s.workers[w].hash == h;
      if e.Send? && e.worker == w {
        assert s'.issued[|s.issued|] == h;
      } else if w < |s'.workers| {
        assert InFlight(s'.workers[w]) && s'.workers[w].hash == h;
      }
    } else if e.Draw? && e.hash == h && h !in s.queried {
      assert InFlight(s'.workers[e.worker]) && s'.workers[e.worker].hash == h;
    }
  }

  /** The hashes queried are exactly those ever drawn, and each has been issued or is on its way. */
  lemma {:induction false} DrawnIsIssued(size: nat, steps: seq<Step>, h: Hash)
    requires Possible(size, steps)
    ensures h in At(size, steps).queried <==> Drawn(steps, h)
    ensures Served(At(size, steps), h)
  {
    if steps != [] {
      var k := |steps| - 1;
      LastStep(size, steps);
      DrawnIsIssued(size, steps[..k], h);
      ReachableInv(size, steps[..k]);
      DrawnStep(steps, h);
      ServedStep(At(size, steps[..k]), steps[k], h);
    }
  }

  /** Once `stop` has joined the workers, every hash ever drawn has been issued, and issued once. */
  lemma AllIssuedAfterStop(size: nat, steps: seq<Step>, h: Hash)
    requires Possible(size, steps) && At(size, steps).controller.Idle?
    ensures
      var s := At(size, steps);
      && (h in s.issued <==> Drawn(steps, h))
      && (forall i, j :: 0 <= i < j < |s.issued| ==> s.issued[i] != s.issued[j])
  {
    ReachableInv(size, steps);
    DrawnIsIssued(size, steps, h);
  }

  // ----- Stopping -----

  predicate StepOf(e: Step, w: nat) {
    match e
    case Enter(x) => x == w
    case CheckLoop(x) => x == w
    case CheckFor(x) => x == w
    case Draw(x, _) => x == w
    case CountGenerated(x) => x == w
    case Send(x, _) => x == w
    case Leave(x) => x == w
    case _ => false
  }

  /** A worker that has not finished can always take a step of its own. */
  lemma WorkerNeverStuck(s: Manager, w: nat) returns (e: Step)
    requires w < |s.workers| && !s.workers[w].Done?
    ensures StepOf(e, w) && Enabled(s, e)
  {
    match s.workers[w]
    case Spawned => e := Enter(w);
    case LoopCheck => e := CheckLoop(w);
    case ForCheck(_) => e := CheckFor(w);
    case Drawing(_) => e := Draw(w, "");
    case Inserted(_, _) => e := CountGenerated(w);
    case Sending(_, _) => e := Send(w, true);
    case Leaving => e := Leave(w);
  }

  /** Own steps a worker can still take once stop is requested. */
  function StepsLeft(x: Worker): nat {
    match x
    case Drawing(_) => 6
    case Inserted(_, _) => 5
    case Sending(_, _) => 4
    case ForCheck(_) => 3
    case Spawned => 3
    case LoopCheck => 2
    case Leaving => 1
    case Done => 0
  }

  /** Once stop is requested each worker finishes within six steps of its own, so `stop` can join it. */
  lemma StopFinishes(s: Manager, e: Step, w: nat)
    requires s.stopRequested && Enabled(s, e) && w < |s.workers| && w < |Apply(s, e).workers|
    ensures StepsLeft(s.workers[w]) <= 6 && (StepsLeft(s.workers[w]) == 0 <==> s.workers[w].Done?)
    ensures StepOf(e, w) ==> StepsLeft(Apply(s, e).workers[w]) < StepsLeft(s.workers[w])
    ensures !StepOf(e, w) ==> Apply(s, e).workers[w] == s.workers[w]
  {
  }

  // ----- What the counters count -----

  ghost function Sends(steps: seq<Step>, ok: bool): nat {
    if steps == [] then 0
    else
      var e := steps[|steps| - 1];
      Sends(steps[..|steps| - 1], ok) + if e.Send? && e.ok == ok then 1 else 0
  }

  /** Two queries are counted for each hash the session took, none for one it refused. */
  lemma {:induction false} SentCountsAccepted(size: nat, steps: seq<Step>)
    requires Possible(size, steps)
    ensures
      var s := At(size, steps);
      s.sent == 2 * Sends(steps, true) && |s.issued| == Sends(steps, true) + Sends(steps, false)
  {
    if steps != [] {
      LastStep(size, steps);
      SentCountsAccepted(size, steps[..|steps| - 1]);
    }
  }

  // ----- Rounds of five -----

  /** Hashes worker `w` has drawn since it last looked at the outer loop's condition. */
  ghost function DrawsThisRound(steps: seq<Step>, w: nat): nat {
    if steps == [] then 0
    else
      var e := steps[|steps| - 1];
      if e == CheckLoop(w) || e == Enter(w) || e.Join? then 0
      else DrawsThisRound(steps[..|steps| - 1], w) + if e.Draw? && e.worker == w then 1 else 0
  }

  ghost predicate RoundIs(x: Worker, draws: nat) {
    match x
    case ForCheck(i) => i == draws <= 5
    case Drawing(i) => i == draws < 5
    case Inserted(i, _) => i + 1 == draws <= 5
    case Sending(i, _) => i + 1 == draws <= 5
    case _ => true
  }

  lemma RoundStep(s: Manager, e: Step, w: nat, draws: nat)
    requires Controlled(s) && Enabled(s, e) && (w < |s.workers| ==> RoundIs(s.workers[w], draws))
    ensures
      var draws' := if e == CheckLoop(w) || e == Enter(w) || e.Join? then 0
                    else draws + if e.Draw? && e.worker == w then 1 else 0;
      w < |Apply(s, e).workers| ==> RoundIs(Apply(s, e).workers[w], draws')
  {
  }

  lemma {:induction false} RoundsMatch(size: nat, steps: seq<Step>, w: nat)
    requires Possible(size, steps)
    ensures w < |At(size, steps).workers| ==> RoundIs(At(size, steps).workers[w], DrawsThisRound(steps, w))
  {
    if steps != [] {
      var k := |steps| - 1;
      LastStep(size, steps);
      RoundsMatch(size, steps[..k], w);
      ReachableInv(size, steps[..k]);
      RoundStep(At(size, steps[..k]), steps[k], w, DrawsThisRound(steps[..k], w));
    }
  }

  /** A worker draws five hashes a round, fewer only when it is told to stop: at the inner loop's check it
      goes on to draw exactly when it has drawn fewer than five and no stop was requested. */
  lemma RoundsAreFive(size: nat, steps: seq<Step>, w: nat)
    requires Possible(size, steps) && Enabled(At(size, steps), CheckFor(w))
    ensures
      var s := At(size, steps);
      && DrawsThisRound(steps, w) <= 5
      && (Apply(s, CheckFor(w)).workers[w].Drawing? <==>
            DrawsThisRound(steps, w) < 5 && s.running && !s.stopRequested)
  {
    RoundsMatch(size, steps, w);
  }
}
