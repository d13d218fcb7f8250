/** The request life cycle (`RequestCacheManager`): four maps that a request moves between. */
module RequestCache {
  import opened Wrappers
  import opened Machine
  import RequestId

  datatype Status = PENDING | COMPLETED | FAILED | EXPIRED | NOT_FOUND

  datatype Info = Info(
    id: string,
    kind: string,
    target: string,
    parameters: map<string, string>,
    status: Status,
    createdAt: int,
    expiresAt: int,
    retryCount: nat,
    maxRetries: int,
    result: string,
    error: string)

  datatype Config = Config(requestTimeoutMs: int, maxRetries: int, cleanupIntervalMs: int)

  datatype Cache = Cache(
    config: Config,
    counter: nat,
    active: map<string, Info>,
    completed: map<string, Info>,
    failed: map<string, Info>,
    expired: map<string, Info>)

  // ----- The calls -----

  function NewInfo(c: Cache, id: string, kind: string, target: string, parameters: map<string, string>, now: int): Info {
    Info(id, kind, target, parameters, PENDING, now, now + Millis(c.config.requestTimeoutMs), 0, c.config.maxRetries, "", "")
  }

  function Added(c: Cache, kind: string, target: string, parameters: map<string, string>, stampMs: int, now: int): Cache {
    var id := RequestId.Make(stampMs, c.counter);
    c.(counter := c.counter + 1, active := c.active[id := NewInfo(c, id, kind, target, parameters, now)])
  }

  function Overdue(c: Cache, now: int): set<string> {
    OverdueIn(c.active, now)
  }

  function OverdueIn(active: map<string, Info>, now: int): set<string> {
    set id | id in active && now >= active[id].expiresAt
  }

  function Expire(c: Cache, gone: set<string>): Cache {
    c.(active := c.active - gone, expired := WithExpired(c.active, c.expired, gone))
  }

  function WithExpired(active: map<string, Info>, expired: map<string, Info>, gone: set<string>): (e: map<string, Info>)
    ensures e.Keys == expired.Keys + gone * active.Keys
  {
    expired + map id | id in gone && id in active :: active[id].(status := EXPIRED)
  }

  function Stale(c: Cache, now: int): set<string> {
    StaleIn(c.expired, now, c.config.cleanupIntervalMs)
  }

  function StaleIn(expired: map<string, Info>, now: int, intervalMs: int): set<string> {
    set id | id in expired && now - expired[id].expiresAt > Millis(intervalMs)
  }

  function Swept(c: Cache, gone: set<string>): Cache {
    c.(expired := c.expired - gone)
  }

  function Completed(c: Cache, id: string, result: string): Cache {
    if id !in c.active then c
    else c.(completed := c.completed[id := c.active[id].(status := COMPLETED, result := result)], active := c.active - {id})
  }

  function Failed(c: Cache, id: string, error: string, now: int): Cache {
    if id !in c.active then c
    else
      var info := c.active[id].(status := FAILED, error := error, retryCount := c.active[id].retryCount + 1);
      if info.retryCount < info.maxRetries then
        c.(active := c.active[id := info.(status := PENDING, expiresAt := now + Millis(c.config.requestTimeoutMs))])
      else c.(failed := c.failed[id := info], active := c.active - {id})
  }

  /** `getRequestInfo`: active, completed, failed, expired, in that order. */
  function Lookup(c: Cache, id: string): Option<Info> {
    if id in c.active then Some(c.active[id])
    else if id in c.completed then Some(c.completed[id])
    else if id in c.failed then Some(c.failed[id])
    else if id in c.expired then Some(c.expired[id])
    else None
  }

  /** `getRequestStatus` looks only among the active and the expired requests. */
  function StatusOf(c: Cache, id: string): Status {
    if id in c.active then c.active[id].status
    else if id in c.expired then c.expired[id].status
    else NOT_FOUND
  }

  class RequestCacheManager {
    var config: Config
    var counter: nat
    var active: map<string, Info>
    var completed: map<string, Info>
    var failed: map<string, Info>
    var expired: map<string, Info>

    ghost function Model(): Cache
      reads this
    {
      Cache(config, counter, active, completed, failed, expired)
    }

    constructor (config: Config)
      ensures Model() == Cache(config, 0, map[], map[], map[], map[])
    {
      this.config, counter := config, 0;
      active, completed, failed, expired := map[], map[], map[], map[];
    }

    method AddRequest(kind: string, target: string, parameters: map<string, string>, stampMs: int, now: int)
      returns (id: string)
      modifies this
      ensures id == RequestId.Make(stampMs, old(counter))
      ensures Model() == Added(old(Model()), kind, target, parameters, stampMs, now)
    {
      id := RequestId.Make(stampMs, counter);
      counter := counter + 1;
      active := active[id := Info(id, kind, target, parameters, PENDING, now,
                                  now + Millis(config.requestTimeoutMs), 0, config.maxRetries, "", "")];
    }

    method CheckExpiredRequests(now: int)
      modifies `active, `expired
      ensures Model() == Expire(old(Model()), Overdue(old(Model()), now))
    {
      active, expired := MoveOverdue(active, expired, now);
    }

    method CleanupExpiredRequests(now: int)
      modifies `expired
      ensures Model() == Swept(old(Model()), Stale(old(Model()), now))
    {
      expired := DropStale(expired, now, config.cleanupIntervalMs);
    }

    method MarkRequestComplete(id: string, result: string) returns (found: bool)
      modifies this
      ensures found == (id in old(active)) && Model() == Completed(old(Model()), id, result)
    {
      if id !in active {
        return false;
      }
      completed := completed[id := active[id].(status := COMPLETED, result := result)];
      active := active - {id};
      return true;
    }

    method MarkRequestFailed(id: string, error: string, now: int) returns (found: bool)
      modifies this
      ensures found == (id in old(active)) && Model() == Failed(old(Model()), id, error, now)
    {
      if id !in active {
        return false;
      }
      var info := active[id].(status := FAILED, error := error, retryCount := active[id].retryCount + 1);
      active := active[id := info];
      if info.retryCount < info.maxRetries {
        active := active[id := info.(status := PENDING, expiresAt := now + Millis(config.requestTimeoutMs))];
        assert active == old(active)[id := active[id]];
      } else {
        failed := failed[id := info];
        active := active - {id};
        assert active == old(active) - {id};
      }
      return true;
    }
  }

  /** The loop of `checkExpiredRequests` over the two maps. */
  method MoveOverdue(active: map<string, Info>, expired: map<string, Info>, now: int)
    returns (a: map<string, Info>, e: map<string, Info>)
    ensures a == active - OverdueIn(active, now) && e == WithExpired(active, expired, OverdueIn(active, now))
  {
    a, e := active, expired;
    ghost var done: set<string> := {};
    var todo := active.Keys;
    while todo != {}
      invariant todo <= active.Keys && done == OverdueIn(active, now) - todo
      invariant a == active - done && ExpiredInto(active, expired, done, e)
      decreases todo
    {
      var id :| id in todo;
      if now >= active[id].expiresAt {
        a, e := a - {id}, e[id := active[id].(status := EXPIRED)];
        done := done + {id};
      }
      todo := todo - {id};
    }
    ExpiredIntoWhole(active, expired, done, e);
    assert done == OverdueIn(active, now);
  }

  ghost predicate ExpiredInto(active: map<string, Info>, expired: map<string, Info>, gone: set<string>, e: map<string, Info>) {
    && e.Keys == expired.Keys + gone
    && (forall id :: id in gone ==> id in active && e[id] == active[id].(status := EXPIRED))
    && (forall id :: id in expired && id !in gone ==> e[id] == expired[id])
  }

  lemma ExpiredIntoWhole(active: map<string, Info>, expired: map<string, Info>, gone: set<string>, e: map<string, Info>)
    requires ExpiredInto(active, expired, gone, e)
    ensures e == WithExpired(active, expired, gone)
  {
  }

  /** The loop of `cleanupExpiredRequests`. */
  method DropStale(expired: map<string, Info>, now: int, intervalMs: int) returns (e: map<string, Info>)
    ensures e == expired - StaleIn(expired, now, intervalMs)
  {
    e := expired;
    ghost var gone, done: set<string> := StaleIn(expired, now, intervalMs), {};
    var todo := expired.Keys;
    while todo != {}
      invariant todo <= expired.Keys && done == gone - todo
      invariant e == expired - done
      decreases todo
    {
      var id :| id in todo;
      if now - expired[id].expiresAt > Millis(intervalMs) {
        e := e - {id};
        done := done + {id};
      }
      todo := todo - {id};
    }
    assert done == gone;
  }

  // ----- Runs -----

  /** The cache with the history no field records: requests added, swept and cleared, and failures so far. */
  datatype World = World(cache: Cache, adds: nat, swept: nat, cleared: nat, failures: map<string, nat>)

  datatype Event =
    | Add(kind: string, target: string, parameters: map<string, string>, stampMs: int, now: int)
    | CheckExpired(now: int)
    | Cleanup(now: int)
    | Complete(id: string, result: string)
    | Fail(id: string, error: string, now: int)
    | Configure(config: Config)
    | ClearExpired
    | ClearAll
    | OtherInstanceAdds

  function Held(c: Cache): nat {
    |c.active| + |c.completed| + |c.failed| + |c.expired|
  }

  function Step(w: World, e: Event): World {
    var c := w.cache;
    match e
    case Add(kind, target, parameters, stampMs, now) =>
      w.(cache := Added(c, kind, target, parameters, stampMs, now), adds := w.adds + 1,
         failures := w.failures[RequestId.Make(stampMs, c.counter) := 0])
    case CheckExpired(now) => w.(cache := Expire(c, Overdue(c, now)))
    case Cleanup(now) => w.(cache := Swept(c, Stale(c, now)), swept := w.swept + |Stale(c, now)|)
    case Complete(id, result) => w.(cache := Completed(c, id, result))
    case Fail(id, error, now) =>
      w.(cache := Failed(c, id, error, now),
         failures := if id in c.active && id in w.failures then w.failures[id := w.failures[id] + 1] else w.failures)
    case Configure(config) => w.(cache := c.(config := config))
    case ClearExpired => w.(cache := c.(expired := map[]), cleared := w.cleared + |c.expired|)
    case ClearAll =>
      w.(cache := c.(active := map[], completed := map[], failed := map[], expired := map[]), cleared := w.cleared + Held(c))
    case OtherInstanceAdds => w.(cache := c.(counter := c.counter + 1))
  }

  function Run(config: Config, events: seq<Event>): World {
    if events == [] then World(Cache(config, 0, map[], map[], map[], map[]), 0, 0, 0, map[])
    else Step(Run(config, events[..|events| - 1]), events[|events| - 1])
  }

  ghost predicate Known(c: Cache, id: string) {
    id in c.active || id in c.completed || id in c.failed || id in c.expired
  }

  /** A request is in at most one of the four maps. */
  ghost predicate InOneMap(c: Cache, id: string) {
    && (id in c.active ==> id !in c.completed && id !in c.failed && id !in c.expired)
    && (id in c.completed ==> id !in c.failed && id !in c.expired)
    && (id in c.failed ==> id !in c.expired)
  }

  /** The record of a request in some map: the status the map implies, and the failures seen so far, which
      reach max(1, maxRetries) exactly for a failed one. */
  ghost predicate Record(w: World, id: string, info: Info, status: Status) {
    && info.status == status
    && id in w.failures && info.retryCount == w.failures[id]
    && (if status == FAILED then w.failures[id] == Max(1, info.maxRetries) else w.failures[id] < Max(1, info.maxRetries))
  }

  ghost predicate Issued(id: string, counter: nat) {
    exists t: int, k: nat :: k < counter && id == RequestId.Make(t, k)
  }

  ghost predicate Fits(w: World, id: string) {
    var c := w.cache;
    && InOneMap(c, id)
    && (id in c.active ==> Record(w, id, c.active[id], PENDING))
    && (id in c.completed ==> Record(w, id, c.completed[id], COMPLETED))
    && (id in c.failed ==> Record(w, id, c.failed[id], FAILED))
    && (id in c.expired ==> Record(w, id, c.expired[id], EXPIRED))
    && (Known(c, id) ==> Issued(id, c.counter))
  }

  ghost predicate Conserved(w: World) {
    w.adds == Held(w.cache) + w.swept + w.cleared
  }

  ghost predicate Inv(w: World) {
    (forall id :: Fits(w, id)) && Conserved(w)
  }

  lemma FreshId(w: World, stampMs: int)
    requires Fits(w, RequestId.Make(stampMs, w.cache.counter))
    ensures !Known(w.cache, RequestId.Make(stampMs, w.cache.counter))
  {
    var id := RequestId.Make(stampMs, w.cache.counter);
    if Issued(id, w.cache.counter) {
      var t: int, k: nat :| k < w.cache.counter && id == RequestId.Make(t, k);
      RequestId.CountersTellApart(t, k, stampMs, w.cache.counter);
    }
  }

  lemma IssuedGrows(id: string, n: nat, m: nat)
    requires Issued(id, n) && n <= m
    ensures Issued(id, m)
  {
    var t: int, k: nat :| k < n && id == RequestId.Make(t, k);
  }

  lemma AddKeepsFits(w: World, e: Event, id: string)
    requires e.Add? && Fits(w, id)
    ensures Fits(Step(w, e), id)
  {
    var w' := Step(w, e);
    if id == RequestId.Make(e.stampMs, w.cache.counter) {
      FreshId(w, e.stampMs);
      assert Issued(id, w'.cache.counter);
    } else if Known(w.cache, id) {
      IssuedGrows(id, w.cache.counter, w'.cache.counter);
    }
  }

  lemma StepKeepsFits(w: World, e: Event, id: string)
    requires Fits(w, id)
    ensures Fits(Step(w, e), id)
  {
    match e
    case Add(_, _, _, _, _) => AddKeepsFits(w, e, id);
    case OtherInstanceAdds =>
      if Known(w.cache, id) { IssuedGrows(id, w.cache.counter, w.cache.counter + 1); }
    case Fail(x, error, now) => FailKeepsFits(w, x, error, now, id);
    case CheckExpired(now) => ExpireKeepsFits(w, now, id);
    case _ =>
  }

  lemma FailKeepsFits(w: World, x: string, error: string, now: int, id: string)
    requires Fits(w, id)
    ensures Fits(Step(w, Fail(x, error, now)), id)
  {
  }

  lemma ExpireKeepsFits(w: World, now: int, id: string)
    requires Fits(w, id)
    ensures Fits(Step(w, CheckExpired(now)), id)
  {
  }

  lemma KeysMove(a: map<string, Info>, b: map<string, Info>, gone: set<string>, a': map<string, Info>, b': map<string, Info>)
    requires gone <= a.Keys && gone !! b.Keys && a'.Keys == a.Keys - gone && b'.Keys == b.Keys + gone
    ensures |a'| + |b'| == |a| + |b|
  {
    assert |a'| == |a'.Keys| && |b'| == |b'.Keys| && |a| == |a.Keys| && |b| == |b.Keys|;
  }

  lemma KeysGo(a: map<string, Info>, gone: set<string>)
    requires gone <= a.Keys
    ensures |a - gone| + |gone| == |a|
  {
    assert (a - gone).Keys == a.Keys - gone;
    assert |a - gone| == |(a - gone).Keys| && |a| == |a.Keys|;
  }

  lemma AddConserves(w: World, e: Event)
    requires Conserved(w) && e.Add? && Fits(w, RequestId.Make(e.stampMs, w.cache.counter))
    ensures Conserved(Step(w, e))
  {
    var c, c' := w.cache, Step(w, e).cache;
    var id := RequestId.Make(e.stampMs, c.counter);
    FreshId(w, e.stampMs);
    assert c'.active.Keys == c.active.Keys + {id};
    assert |c'.active| == |c'.active.Keys|;
  }

  lemma ExpireConserves(w: World, gone: set<string>)
    requires Conserved(w) && gone <= w.cache.active.Keys && gone !! w.cache.expired.Keys
    ensures Conserved(w.(cache := Expire(w.cache, gone)))
  {
    ExpiredKeys(w.cache.active, w.cache.expired, gone);
  }

  lemma ExpiredKeys(active: map<string, Info>, expired: map<string, Info>, gone: set<string>)
    requires gone <= active.Keys && gone !! expired.Keys
    ensures |active - gone| + |WithExpired(active, expired, gone)| == |active| + |expired|
  {
    var a', b' := active - gone, WithExpired(active, expired, gone);
    assert a'.Keys == active.Keys - gone && b'.Keys == expired.Keys + gone;
    KeysMove(active, expired, gone, a', b');
  }

  lemma CompleteConserves(w: World, id: string, result: string)
    requires Conserved(w) && InOneMap(w.cache, id)
    ensures Conserved(Step(w, Complete(id, result)))
  {
    var c := w.cache;
    if id in c.active {
      var c' := Completed(c, id, result);
      assert c'.active.Keys == c.active.Keys - {id} && c'.completed.Keys == c.completed.Keys + {id};
      KeysMove(c.active, c.completed, {id}, c'.active, c'.completed);
    }
  }

  lemma RetryKeepsSize(a: map<string, Info>, id: string, info: Info)
    requires id in a
    ensures |a[id := info]| == |a|
  {
    assert a[id := info].Keys == a.Keys;
    assert |a[id := info]| == |a[id := info].Keys| && |a| == |a.Keys|;
  }

  lemma FailConserves(w: World, id: string, error: string, now: int)
    requires Conserved(w) && InOneMap(w.cache, id)
    ensures Conserved(Step(w, Fail(id, error, now)))
  {
    var c := w.cache;
    if id in c.active {
      var info := c.active[id].(status := FAILED, error := error, retryCount := c.active[id].retryCount + 1);
      var retry := info.(status := PENDING, expiresAt := now + Millis(c.config.requestTimeoutMs));
      RetryKeepsSize(c.active, id, retry);
      FailMoves(c.active, c.failed, id, info);
    }
  }

  lemma FailMoves(active: map<string, Info>, failed: map<string, Info>, id: string, info: Info)
    requires id in active && id !in failed
    ensures |active - {id}| + |failed[id := info]| == |active| + |failed|
  {
    assert (active - {id}).Keys == active.Keys - {id} && failed[id := info].Keys == failed.Keys + {id};
    KeysMove(active, failed, {id}, active - {id}, failed[id := info]);
  }

  lemma StepConserves(w: World, e: Event)
    requires Inv(w)
    ensures Conserved(Step(w, e))
  {
    var c := w.cache;
    match e
    case Add(_, _, _, stampMs, _) =>
      assert Fits(w, RequestId.Make(stampMs, c.counter));
      AddConserves(w, e);
    case CheckExpired(now) =>
      forall id | id in Overdue(c, now) ensures id !in c.expired { assert Fits(w, id); }
      ExpireConserves(w, Overdue(c, now));
    case Cleanup(now) => KeysGo(c.expired, Stale(c, now));
    case Complete(id, result) =>
      assert Fits(w, id);
      CompleteConserves(w, id, result);
    case Fail(id, error, now) =>
      assert Fits(w, id);
      FailConserves(w, id, error, now);
    case _ =>
  }

  /** In every run: a request is in at most one map, with the status that map implies, in `failed` after
      exactly max(1, maxRetries) failures; and every request added is in a map, swept, or cleared. */
  lemma {:induction false} ReachableInv(config: Config, events: seq<Event>)
    ensures Inv(Run(config, events))
  {
    if events != [] {
      var n := |events| - 1;
      ReachableInv(config, events[..n]);
      var w := Run(config, events[..n]);
      forall id ensures Fits(Step(w, events[n]), id) {
        assert Fits(w, id);
        StepKeepsFits(w, events[n], id);
      }
      StepConserves(w, events[n]);
    }
  }

  /** Completed and failed requests stay as they are until everything is cleared; an expired one stays or
      goes, and is never active again. */
  lemma TerminalStatesAbsorb(w: World, e: Event, id: string)
    requires Fits(w, id)
    ensures var c, c' := w.cache, Step(w, e).cache;
      && (!e.ClearAll? && id in c.completed ==> id in c'.completed && c'.completed[id] == c.completed[id])
      && (!e.ClearAll? && id in c.failed ==> id in c'.failed && c'.failed[id] == c.failed[id])
      && (id in c.expired ==> !Known(c', id) || (id in c'.expired && c'.expired[id] == c.expired[id]))
      && (id in c.completed || id in c.failed || id in c.expired ==> id !in c'.active)
  {
    if e.Add? && id == RequestId.Make(e.stampMs, w.cache.counter) {
      FreshId(w, e.stampMs);
    }
  }

  // ----- Looking requests up -----

  datatype Place = InActive | InCompleted | InFailed | InExpired

  ghost function At(c: Cache, p: Place): map<string, Info> {
    match p
    case InActive => c.active
    case InCompleted => c.completed
    case InFailed => c.failed
    case InExpired => c.expired
  }

  /** Looking through the maps in some other order. */
  ghost function FirstHit(c: Cache, id: string, order: seq<Place>): Option<Info> {
    if order == [] then None
    else if id in At(c, order[0]) then Some(At(c, order[0])[id])
    else FirstHit(c, id, order[1..])
  }

  /** The order in which `getRequestInfo` consults the maps does not matter. */
  lemma {:induction false} LookupOrderIrrelevant(c: Cache, id: string, order: seq<Place>)
    requires InOneMap(c, id)
    requires forall p: Place :: id in At(c, p) ==> p in order
    ensures FirstHit(c, id, order) == Lookup(c, id)
  {
    if order == [] {
      assert forall p: Place :: id !in At(c, p);
      assert id !in At(c, InActive) && id !in At(c, InCompleted) && id !in At(c, InFailed) && id !in At(c, InExpired);
    } else if id !in At(c, order[0]) {
      LookupOrderIrrelevant(c, id, order[1..]);
    }
  }

  /** The status call agrees with the record exactly for requests that are neither completed nor failed. */
  lemma StatusAgreesExactly(w: World, id: string)
    requires Fits(w, id)
    ensures var c := w.cache;
      StatusOf(c, id) == RecordedStatus(c, id) <==> id !in c.completed && id !in c.failed
  {
  }

  ghost function RecordedStatus(c: Cache, id: string): Status {
    if Lookup(c, id).Some? then Lookup(c, id).value.status else NOT_FOUND
  }
}
