/** The life of one request, told without the four maps: the reference the request cache is compared with. */
module RequestLives {
  import opened Machine
  import opened RequestCache
  import RequestId

  /** What was asked for, and when. */
  datatype Asked = Asked(kind: string, target: string, parameters: map<string, string>, at: int)

  /** A live request is due one timeout after it was added or last failed. */
  datatype Life =
    | Unknown
    | Live(asked: Asked, due: int, failures: nat, allowed: int)
    | Succeeded(asked: Asked, result: string)
    | GaveUp(asked: Asked, error: string, failures: nat)
    | Late(asked: Asked, due: int)

  /** The life of request `id` through one event; `counter` is the number the next request gets. */
  function Lived(life: Life, e: Event, id: string, counter: nat, config: Config): Life {
    match e
    case Add(kind, target, parameters, stampMs, now) =>
      if id == RequestId.Make(stampMs, counter) then
        Live(Asked(kind, target, parameters, now), now + Millis(config.requestTimeoutMs), 0, config.maxRetries)
      else life
    case CheckExpired(now) => if life.Live? && life.due <= now then Late(life.asked, life.due) else life
    case Cleanup(now) => if life.Late? && now > life.due + Millis(config.cleanupIntervalMs) then Unknown else life
    case Complete(x, result) => if x == id && life.Live? then Succeeded(life.asked, result) else life
    case Fail(x, error, now) =>
      if x != id || !life.Live? then life
      else if life.failures + 1 < life.allowed then
        Live(life.asked, now + Millis(config.requestTimeoutMs), life.failures + 1, life.allowed)
      else GaveUp(life.asked, error, life.failures + 1)
    case ClearExpired => if life.Late? then Unknown else life
    case ClearAll => Unknown
    case Configure(_) => life
    case OtherInstanceAdds => life
  }

  /** The life of `id` in a run. */
  ghost function LifeOf(config: Config, events: seq<Event>, id: string): Life {
    if events == [] then Unknown
    else
      var front := events[..|events| - 1];
      var c := Run(config, front).cache;
      Lived(LifeOf(config, front, id), events[|events| - 1], id, c.counter, c.config)
  }

  function AskedIn(i: Info): Asked {
    Asked(i.kind, i.target, i.parameters, i.createdAt)
  }

  /** What the four maps say about `id`. */
  function View(c: Cache, id: string): Life {
    if id in c.active then
      var i := c.active[id];
      Live(AskedIn(i), i.expiresAt, i.retryCount, i.maxRetries)
    else if id in c.completed then Succeeded(AskedIn(c.completed[id]), c.completed[id].result)
    else if id in c.failed then GaveUp(AskedIn(c.failed[id]), c.failed[id].error, c.failed[id].retryCount)
    else if id in c.expired then Late(AskedIn(c.expired[id]), c.expired[id].expiresAt)
    else Unknown
  }

  lemma FailElsewhere(c: Cache, x: string, error: string, now: int, id: string)
    requires x != id
    ensures View(Failed(c, x, error, now), id) == View(c, id)
  {
  }

  lemma FailView(w: World, x: string, error: string, now: int, id: string)
    requires Fits(w, id)
    ensures View(Step(w, Fail(x, error, now)).cache, id) ==
      Lived(View(w.cache, id), Fail(x, error, now), id, w.cache.counter, w.cache.config)
  {
    if x != id {
      FailElsewhere(w.cache, x, error, now, id);
    }
  }

  lemma CompleteView(w: World, x: string, result: string, id: string)
    requires Fits(w, id)
    ensures View(Step(w, Complete(x, result)).cache, id) ==
      Lived(View(w.cache, id), Complete(x, result), id, w.cache.counter, w.cache.config)
  {
  }

  lemma TimeView(w: World, e: Event, id: string)
    requires Fits(w, id) && (e.CheckExpired? || e.Cleanup?)
    ensures View(Step(w, e).cache, id) == Lived(View(w.cache, id), e, id, w.cache.counter, w.cache.config)
  {
  }

  lemma AddView(w: World, e: Event, id: string)
    requires Fits(w, id) && e.Add?
    ensures View(Step(w, e).cache, id) == Lived(View(w.cache, id), e, id, w.cache.counter, w.cache.config)
  {
    if id == RequestId.Make(e.stampMs, w.cache.counter) { FreshId(w, e.stampMs); }
  }

  lemma StepView(w: World, e: Event, id: string)
    requires Fits(w, id)
    ensures View(Step(w, e).cache, id) == Lived(View(w.cache, id), e, id, w.cache.counter, w.cache.config)
  {
    match e
    case Add(_, _, _, _, _) => AddView(w, e, id);
    case Fail(x, error, now) => FailView(w, x, error, now, id);
    case Complete(x, result) => CompleteView(w, x, result, id);
    case CheckExpired(_) => TimeView(w, e, id);
    case Cleanup(_) => TimeView(w, e, id);
    case _ =>
  }

  /** In every run the four maps tell exactly the life of each request: it expires exactly at a check no
      earlier than one timeout after it was added or last failed, it is forgotten exactly at a sweep more
      than the interval after that, and its result or error is the one that was passed in. */
  lemma {:induction false} CacheTellsLives(config: Config, events: seq<Event>, id: string)
    ensures View(Run(config, events).cache, id) == LifeOf(config, events, id)
  {
    if events != [] {
      var n := |events| - 1;
      CacheTellsLives(config, events[..n], id);
      ReachableInv(config, events[..n]);
      assert Fits(Run(config, events[..n]), id);
      StepView(Run(config, events[..n]), events[n], id);
    }
  }

  /** And each map holds exactly the requests at its stage of life. */
  lemma MapsByStage(config: Config, events: seq<Event>, id: string)
    ensures
      var c, life := Run(config, events).cache, LifeOf(config, events, id);
      && (id in c.active <==> life.Live?) && (id in c.completed <==> life.Succeeded?)
      && (id in c.failed <==> life.GaveUp?) && (id in c.expired <==> life.Late?)
  {
    CacheTellsLives(config, events, id);
    ReachableInv(config, events);
    assert Fits(Run(config, events), id);
  }
}
