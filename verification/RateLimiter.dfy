/** The sliding-window limiter in front of every DHT query (`RateLimitedDHTManager`).

    The limiter keeps the time stamps of recent sends and forgets those older than one second. What it
    promises is about the WHOLE history of sends, so a run carries that history beside the limiter. */
module RateLimiter {
  import opened Machine

  datatype Limiter = Limiter(
    stamps: seq<int>,
    rate: Int32,
    burstLimit: Int32,
    burstWindowMs: Int32,
    total: nat,
    blocked: nat)

  /** Drop time stamps from the front while they are more than one second old. */
  function Prune(stamps: seq<int>, now: int): seq<int> {
    if stamps != [] && now - stamps[0] > SECOND then Prune(stamps[1..], now) else stamps
  }

  /** How many time stamps lie strictly after `t`. */
  function CountAfter(stamps: seq<int>, t: int): (n: nat)
    ensures n <= |stamps|
  {
    if stamps == [] then 0
    else CountAfter(stamps[..|stamps| - 1], t) + (if stamps[|stamps| - 1] > t then 1 else 0)
  }

  predicate RateExceeded(l: Limiter, now: int) {
    |Prune(l.stamps, now)| >= AsSize(l.rate)
  }

  predicate BurstExceeded(l: Limiter, now: int) {
    CountAfter(Prune(l.stamps, now), now - Millis(l.burstWindowMs)) >= l.burstLimit
  }

  /** One `send_query` call at time `now`; `sessionOk` is whether the session call returned normally. */
  function Sending(l: Limiter, now: int, sessionOk: bool): (Limiter, bool) {
    var kept := Prune(l.stamps, now);
    if RateExceeded(l, now) || BurstExceeded(l, now) then
      (l.(stamps := kept, blocked := l.blocked + 1), false)
    else if sessionOk then
      (l.(stamps := kept + [now], total := l.total + 1), true)
    else
      (l.(stamps := kept), false)
  }

  class RateLimitedDHTManager {
    var stamps: seq<int>
    var rate: Int32
    var burstLimit: Int32
    var burstWindowMs: Int32
    var total: nat
    var blocked: nat

    ghost function Model(): Limiter
      reads this
    {
      Limiter(stamps, rate, burstLimit, burstWindowMs, total, blocked)
    }

    constructor ()
      ensures Model() == Limiter([], 10, 50, 5000, 0, 0)
    {
      stamps, rate, burstLimit, burstWindowMs, total, blocked := [], 10, 50, 5000, 0, 0;
    }

    method SendQuery(now: int, sessionOk: bool) returns (sent: bool)
      modifies this
      ensures (Model(), sent) == Sending(old(Model()), now, sessionOk)
    {
      while stamps != [] && now - stamps[0] > SECOND
        invariant Model() == old(Model()).(stamps := stamps)
        invariant Prune(stamps, now) == Prune(old(stamps), now)
        decreases |stamps|
      {
        stamps := stamps[1..];
      }
      if |stamps| >= AsSize(rate) {
        blocked := blocked + 1;
        return false;
      }
      var burstStart := now - Millis(burstWindowMs);
      var burstCount := 0;
      var i := 0;
      while i < |stamps|
        invariant 0 <= i <= |stamps|
        invariant burstCount == CountAfter(stamps[..i], burstStart)
      {
        assert stamps[..i + 1][..i] == stamps[..i];
        if stamps[i] > burstStart {
          burstCount := burstCount + 1;
        }
        i := i + 1;
      }
      assert stamps[..i] == stamps;
      if burstCount >= burstLimit {
        blocked := blocked + 1;
        return false;
      }
      if sessionOk {
        stamps := stamps + [now];
        total := total + 1;
        return true;
      }
      return false;
    }

    method SetRateLimit(queriesPerSecond: Int32)
      modifies this
      ensures Model() == old(Model()).(rate := queriesPerSecond)
    {
      rate := queriesPerSecond;
    }

    method SetBurstLimit(limit: Int32, windowMs: Int32)
      modifies this
      ensures Model() == old(Model()).(burstLimit := limit, burstWindowMs := windowMs)
    {
      burstLimit, burstWindowMs := limit, windowMs;
    }
  }

  // ----- Runs -----

  /** A send, with the settings that were in force when it was let through. */
  datatype Send = Send(time: int, rate: Int32, burstLimit: Int32, burstWindowMs: Int32)

  /** The limiter, every send so far, and the last clock reading. */
  datatype World = World(limiter: Limiter, sent: seq<Send>, clock: int)

  /** Clock readings never go back, so a query says how long after the previous one it comes. */
  datatype Event =
    | Query(delay: nat, sessionOk: bool)
    | SetRate(rate: Int32)
    | SetBurst(limit: Int32, windowMs: Int32)

  function Step(w: World, e: Event): World {
    match e
    case Query(delay, ok) =>
      var now := w.clock + delay;
      var (l, sent) := Sending(w.limiter, now, ok);
      World(l, if sent then w.sent + [Send(now, l.rate, l.burstLimit, l.burstWindowMs)] else w.sent, now)
    case SetRate(rate) => w.(limiter := w.limiter.(rate := rate))
    case SetBurst(limit, windowMs) => w.(limiter := w.limiter.(burstLimit := limit, burstWindowMs := windowMs))
  }

  function Run(w: World, events: seq<Event>): World {
    if events == [] then w else Step(Run(w, events[..|events| - 1]), events[|events| - 1])
  }

  function Start(rate: Int32, burstLimit: Int32, burstWindowMs: Int32): World {
    World(Limiter([], rate, burstLimit, burstWindowMs, 0, 0), [], 0)
  }

  /** Sends whose time lies in the half-open window (lo, hi]. */
  ghost function Count(sent: seq<Send>, lo: int, hi: int): nat {
    if sent == [] then 0
    else
      var t := sent[|sent| - 1].time;
      Count(sent[..|sent| - 1], lo, hi) + (if lo < t <= hi then 1 else 0)
  }

  // ----- The invariant of every run -----

  ghost predicate Sorted(sent: seq<Send>) {
    forall i, j :: 0 <= i < j < |sent| ==> sent[i].time <= sent[j].time
  }

  /** The queue holds exactly the last sends, and every forgotten send is more than a second old. */
  ghost predicate Remembers(w: World) {
    var d := |w.sent| - |w.limiter.stamps|;
    && 0 <= d
    && (forall k :: 0 <= k < |w.limiter.stamps| ==> w.limiter.stamps[k] == w.sent[d + k].time)
    && (forall i :: 0 <= i < d ==> w.clock - w.sent[i].time > SECOND)
    && (forall i :: 0 <= i < |w.sent| ==> w.sent[i].time <= w.clock)
  }

  /** The send `rate` places before send `i` is more than a second older. */
  ghost predicate RateSpaced(sent: seq<Send>, i: nat)
    requires i < |sent|
  {
    var r := AsSize(sent[i].rate);
    0 < r && (r <= i ==> sent[i].time - sent[i - r].time > SECOND)
  }

  /** With a burst window of at most a second, the send `burstLimit` places before is outside the window. */
  ghost predicate BurstSpaced(sent: seq<Send>, i: nat)
    requires i < |sent|
  {
    var s := sent[i];
    && 0 < s.burstLimit
    && (s.burstWindowMs <= 1000 && s.burstLimit <= i ==>
          sent[i - s.burstLimit].time <= s.time - Millis(s.burstWindowMs))
  }

  ghost predicate Inv(w: World) {
    && Sorted(w.sent)
    && Remembers(w)
    && (forall i :: 0 <= i < |w.sent| ==> RateSpaced(w.sent, i))
    && (forall i :: 0 <= i < |w.sent| ==> BurstSpaced(w.sent, i))
  }

  lemma {:induction false} PruneIsSuffix(stamps: seq<int>, now: int) returns (k: nat)
    ensures k <= |stamps| && Prune(stamps, now) == stamps[k..]
    ensures forall i :: 0 <= i < k ==> now - stamps[i] > SECOND
    ensures k < |stamps| ==> now - stamps[k] <= SECOND
  {
    if stamps != [] && now - stamps[0] > SECOND {
      var j := PruneIsSuffix(stamps[1..], now);
      k := j + 1;
      forall i | 0 <= i < k ensures now - stamps[i] > SECOND {
        if i > 0 { assert stamps[i] == stamps[1..][i - 1]; }
      }
    } else {
      k := 0;
    }
  }

  /** In a sorted queue the stamps after `t` are its last `CountAfter` ones. */
  lemma {:induction false} CountAfterIsSuffix(stamps: seq<int>, t: int, i: nat)
    requires forall a, b :: 0 <= a < b < |stamps| ==> stamps[a] <= stamps[b]
    requires i < |stamps| - CountAfter(stamps, t)
    ensures stamps[i] <= t
  {
    var n := |stamps| - 1;
    if stamps[n] > t {
      CountAfterIsSuffix(stamps[..n], t, i);
    }
  }

  /** Pruning at a later time keeps the memory exact. */
  lemma PruneRemembers(w: World, now: int)
    requires Remembers(w) && w.clock <= now
    ensures Remembers(World(w.limiter.(stamps := Prune(w.limiter.stamps, now)), w.sent, now))
  {
    var stamps := w.limiter.stamps;
    var k := PruneIsSuffix(stamps, now);
    var d := |w.sent| - |stamps|;
    forall i | 0 <= i < d + k ensures now - w.sent[i].time > SECOND {
      if d <= i { assert w.sent[i].time == stamps[i - d]; }
    }
  }

  /** A send the limiter lets through is spaced from the remembered and the forgotten sends alike. */
  lemma NewSendSpaced(w: World, sent': seq<Send>)
    requires Sorted(w.sent) && Remembers(w)
    requires |sent'| == |w.sent| + 1 && sent'[..|w.sent|] == w.sent && sent'[|w.sent|].time == w.clock
    requires |w.limiter.stamps| < AsSize(sent'[|w.sent|].rate)
    requires CountAfter(w.limiter.stamps, w.clock - Millis(sent'[|w.sent|].burstWindowMs)) < sent'[|w.sent|].burstLimit
    ensures RateSpaced(sent', |w.sent|) && BurstSpaced(sent', |w.sent|)
  {
    var n, stamps := |w.sent|, w.limiter.stamps;
    var d := n - |stamps|;
    var s := sent'[n];
    var edge := w.clock - Millis(s.burstWindowMs);
    if s.burstWindowMs <= 1000 && s.burstLimit <= n {
      var i := n - s.burstLimit;
      assert sent'[i] == w.sent[i];
      if d <= i {
        CountAfterIsSuffix(stamps, edge, i - d);
      }
    }
    var r := AsSize(s.rate);
    if r <= n {
      assert sent'[n - r] == w.sent[n - r];
    }
  }

  lemma SendKeepsInv(w: World, s: Send, l: Limiter)
    requires Inv(w) && s.time == w.clock && l.stamps == w.limiter.stamps + [w.clock]
    requires |w.limiter.stamps| < AsSize(s.rate)
    requires CountAfter(w.limiter.stamps, w.clock - Millis(s.burstWindowMs)) < s.burstLimit
    ensures Inv(World(l, w.sent + [s], w.clock))
  {
    var sent' := w.sent + [s];
    assert sent'[..|w.sent|] == w.sent;
    NewSendSpaced(w, sent');
    AppendKeepsSpacing(w.sent, s);
    AppendRemembers(w, s, l);
  }

  lemma AppendKeepsSpacing(sent: seq<Send>, s: Send)
    requires forall i :: 0 <= i < |sent| ==> RateSpaced(sent, i)
    requires forall i :: 0 <= i < |sent| ==> BurstSpaced(sent, i)
    requires RateSpaced(sent + [s], |sent|) && BurstSpaced(sent + [s], |sent|)
    ensures forall i :: 0 <= i < |sent + [s]| ==> RateSpaced(sent + [s], i)
    ensures forall i :: 0 <= i < |sent + [s]| ==> BurstSpaced(sent + [s], i)
  {
    forall i | 0 <= i < |sent + [s]| ensures RateSpaced(sent + [s], i) && BurstSpaced(sent + [s], i) {
      if i < |sent| { assert RateSpaced(sent, i) && BurstSpaced(sent, i); }
    }
  }

  lemma AppendRemembers(w: World, s: Send, l: Limiter)
    requires Sorted(w.sent) && Remembers(w) && s.time == w.clock && l.stamps == w.limiter.stamps + [w.clock]
    ensures Sorted(w.sent + [s]) && Remembers(World(l, w.sent + [s], w.clock))
  {
  }

  lemma QueryKeepsInv(w: World, delay: nat, ok: bool)
    requires Inv(w)
    ensures Inv(Step(w, Query(delay, ok)))
  {
    PruneKeepsInv(w, w.clock + delay);
    if LetThrough(w, delay, ok) {
      SentKeepsInv(w, delay);
    } else {
      UnsentKeepsInv(w, delay, ok);
    }
  }

  /** The world at a later time, with nothing but the pruning done. */
  ghost function Pruned(w: World, now: int): World {
    World(w.limiter.(stamps := Prune(w.limiter.stamps, now)), w.sent, now)
  }

  ghost predicate LetThrough(w: World, delay: nat, ok: bool) {
    !RateExceeded(w.limiter, w.clock + delay) && !BurstExceeded(w.limiter, w.clock + delay) && ok
  }

  lemma PruneKeepsInv(w: World, now: int)
    requires Inv(w) && w.clock <= now
    ensures Inv(Pruned(w, now))
  {
    PruneRemembers(w, now);
  }

  lemma SentKeepsInv(w: World, delay: nat)
    requires Inv(Pruned(w, w.clock + delay)) && LetThrough(w, delay, true)
    ensures Inv(Step(w, Query(delay, true)))
  {
    var now, l := w.clock + delay, w.limiter;
    var s, l' := Send(now, l.rate, l.burstLimit, l.burstWindowMs), Sending(l, now, true).0;
    var p := Pruned(w, now);
    assert l'.stamps == p.limiter.stamps + [now];
    assert Step(w, Query(delay, true)) == World(l', p.sent + [s], now);
    SendKeepsInv(p, s, l');
  }

  lemma UnsentKeepsInv(w: World, delay: nat, ok: bool)
    requires Inv(Pruned(w, w.clock + delay)) && !LetThrough(w, delay, ok)
    ensures Inv(Step(w, Query(delay, ok)))
  {
    var w', p := Step(w, Query(delay, ok)), Pruned(w, w.clock + delay);
    assert w'.sent == p.sent && w'.limiter.stamps == p.limiter.stamps && w'.clock == p.clock;
  }

  /** Every state of every run remembers the last second exactly and keeps its sends spaced. */
  lemma {:induction false} RunKeepsInv(w: World, events: seq<Event>)
    requires Inv(w)
    ensures Inv(Run(w, events))
  {
    if events != [] {
      var n := |events| - 1;
      RunKeepsInv(w, events[..n]);
      match events[n] {
        case Query(delay, ok) => QueryKeepsInv(Run(w, events[..n]), delay, ok);
        case SetRate(_) =>
        case SetBurst(_, _) =>
      }
    }
  }

  // ----- Windows -----

  lemma {:induction false} CountAtMostRest(sent: seq<Send>, lo: int, hi: int, k: nat)
    requires k <= |sent| && forall i :: 0 <= i < k ==> sent[i].time <= lo
    ensures Count(sent, lo, hi) <= |sent| - k
  {
    if |sent| > k {
      CountAtMostRest(sent[..|sent| - 1], lo, hi, k);
    } else if |sent| > 0 {
      CountAtMostRest(sent[..|sent| - 1], lo, hi, k - 1);
    }
  }

  /** If every send up to `hi` has its `m`-th predecessor at or before `lo`, the window holds at most `m`. */
  lemma {:induction false} CountSpaced(sent: seq<Send>, lo: int, hi: int, m: nat)
    requires Sorted(sent)
    requires forall i :: m <= i < |sent| && lo < sent[i].time <= hi ==> sent[i - m].time <= lo
    ensures Count(sent, lo, hi) <= m
  {
    if sent != [] {
      var n := |sent| - 1;
      if lo < sent[n].time <= hi {
        if m <= n {
          assert sent[n - m].time <= lo;
          CountAtMostRest(sent, lo, hi, n - m + 1);
        } else {
          CountAtMostRest(sent, lo, hi, 0);
        }
      } else {
        forall i | m <= i < n && lo < sent[..n][i].time <= hi ensures sent[..n][i - m].time <= lo {
          assert sent[i - m].time <= lo;
        }
        CountSpaced(sent[..n], lo, hi, m);
      }
    }
  }

  /** Send `i` is the last one in the window (lo, hi]. */
  ghost predicate LastOf(sent: seq<Send>, lo: int, hi: int, i: int) {
    0 <= i < |sent| && lo < sent[i].time <= hi && forall j :: i < j < |sent| ==> sent[j].time > hi
  }

  /** The last send of a window, when the window holds any. */
  lemma {:induction false} LastInWindow(sent: seq<Send>, lo: int, hi: int) returns (i: nat)
    requires Sorted(sent) && Count(sent, lo, hi) > 0
    ensures LastOf(sent, lo, hi, i) && Count(sent, lo, hi) == Count(sent[..i + 1], lo, hi)
  {
    var n := |sent| - 1;
    if lo < sent[n].time <= hi {
      i := n;
      assert sent[..i + 1] == sent;
    } else {
      i := LastInWindow(sent[..n], lo, hi);
      assert sent[..n][..i + 1] == sent[..i + 1];
      assert sent[i].time <= sent[n].time;
      forall j | i < j < |sent| ensures sent[j].time > hi {
        if j < n { assert sent[j] == sent[..n][j]; }
      }
    }
  }

  /** Every closed one-second window of every run holds at most as many sends as the rate limit that was in
      force at its last send allowed. */
  lemma SecondWindowBound(w: World, events: seq<Event>, a: int)
    requires Inv(w)
    ensures
      var sent := Run(w, events).sent;
      || Count(sent, a - 1, a + SECOND) == 0
      || exists i :: LastOf(sent, a - 1, a + SECOND, i) && Count(sent, a - 1, a + SECOND) <= AsSize(sent[i].rate)
  {
    RunKeepsInv(w, events);
    var sent := Run(w, events).sent;
    if Count(sent, a - 1, a + SECOND) > 0 {
      var i := LastInWindow(sent, a - 1, a + SECOND);
      assert RateSpaced(sent, i);
      LastSendBounds(sent, a, i);
    }
  }

  /** The spacing of a window's last send bounds the window. */
  lemma LastSendBounds(sent: seq<Send>, a: int, i: nat)
    requires Sorted(sent) && i < |sent| && a <= sent[i].time <= a + SECOND && RateSpaced(sent, i)
    requires Count(sent, a - 1, a + SECOND) == Count(sent[..i + 1], a - 1, a + SECOND)
    ensures Count(sent, a - 1, a + SECOND) <= AsSize(sent[i].rate)
  {
    var r := AsSize(sent[i].rate);
    CountAtMostRest(sent[..i + 1], a - 1, a + SECOND, if r <= i then i - r + 1 else 0);
  }

  /** Likewise for the burst limit, however the settings change: a window whose last send saw a burst
      window of at most a second, and no shorter than this one, holds at most that send's burst limit. */
  lemma BurstWindowBound(w: World, events: seq<Event>, lo: int, ms: nat)
    requires Inv(w)
    ensures
      var sent := Run(w, events).sent;
      || Count(sent, lo, lo + Millis(ms)) == 0
      || exists i :: LastOf(sent, lo, lo + Millis(ms), i)
                  && (ms <= sent[i].burstWindowMs <= 1000 ==> Count(sent, lo, lo + Millis(ms)) <= sent[i].burstLimit)
  {
    RunKeepsInv(w, events);
    var sent := Run(w, events).sent;
    if Count(sent, lo, lo + Millis(ms)) > 0 {
      var i := LastInWindow(sent, lo, lo + Millis(ms));
      assert BurstSpaced(sent, i);
      if ms <= sent[i].burstWindowMs <= 1000 {
        LastBurstBounds(sent, lo, lo + Millis(ms), i);
      }
    }
  }

  lemma LastBurstBounds(sent: seq<Send>, lo: int, hi: int, i: nat)
    requires Sorted(sent) && LastOf(sent, lo, hi, i) && BurstSpaced(sent, i)
    requires sent[i].burstWindowMs <= 1000 && hi - lo <= Millis(sent[i].burstWindowMs)
    requires Count(sent, lo, hi) == Count(sent[..i + 1], lo, hi)
    ensures Count(sent, lo, hi) <= sent[i].burstLimit
  {
    var b := sent[i].burstLimit;
    CountAtMostRest(sent[..i + 1], lo, hi, if b <= i then i - b + 1 else 0);
  }

  // ----- Exactly which queries go through -----

  /** What the remembered stamps say about a window is what the whole history says, as long as everything
      forgotten lies outside it. */
  lemma {:induction false} CountRemembered(sent: seq<Send>, stamps: seq<int>, lo: int, now: int)
    requires |stamps| <= |sent| && forall k :: 0 <= k < |stamps| ==> stamps[k] == sent[|sent| - |stamps| + k].time
    requires forall i :: 0 <= i < |sent| - |stamps| ==> sent[i].time <= lo
    requires forall i :: 0 <= i < |sent| ==> sent[i].time <= now
    ensures Count(sent, lo, now) == CountAfter(stamps, lo)
  {
    if stamps == [] {
      CountAtMostRest(sent, lo, now, |sent|);
    } else {
      CountRemembered(sent[..|sent| - 1], stamps[..|stamps| - 1], lo, now);
    }
  }

  lemma {:induction false} CountAfterSame(stamps: seq<int>, a: int, b: int)
    requires forall k :: 0 <= k < |stamps| ==> (stamps[k] > a <==> stamps[k] > b)
    ensures CountAfter(stamps, a) == CountAfter(stamps, b)
  {
    if stamps != [] {
      CountAfterSame(stamps[..|stamps| - 1], a, b);
    }
  }

  lemma {:induction false} CountAfterAll(stamps: seq<int>, a: int)
    requires forall k :: 0 <= k < |stamps| ==> stamps[k] > a
    ensures CountAfter(stamps, a) == |stamps|
  {
    if stamps != [] {
      CountAfterAll(stamps[..|stamps| - 1], a);
    }
  }

  /** What pruning leaves is all within the last second. */
  lemma KeptAreRecent(w: World, now: int)
    requires Sorted(w.sent) && Remembers(w) && w.clock <= now
    ensures forall k :: 0 <= k < |Prune(w.limiter.stamps, now)| ==> Prune(w.limiter.stamps, now)[k] > now - SECOND - 1
  {
    var stamps := w.limiter.stamps;
    var d := PruneIsSuffix(stamps, now);
    forall k | d <= k < |stamps| ensures stamps[k] > now - SECOND - 1 {
      assert stamps[d] <= stamps[k];
    }
  }

  /** Sends of the whole history that the limiter should weigh against the rate, and against the burst
      limit, of which it can only see the last second. */
  ghost function RecentSends(w: World, now: int): nat {
    Count(w.sent, now - SECOND - 1, now)
  }

  ghost function RecentBurst(w: World, now: int): nat {
    Count(w.sent, Max(now - SECOND - 1, now - Millis(w.limiter.burstWindowMs)), now)
  }

  lemma ChecksSeeHistory(w: World, now: int)
    requires Inv(w) && w.clock <= now
    ensures RateExceeded(w.limiter, now) <==> RecentSends(w, now) >= AsSize(w.limiter.rate)
    ensures BurstExceeded(w.limiter, now) <==> RecentBurst(w, now) >= w.limiter.burstLimit
  {
    var kept := Prune(w.limiter.stamps, now);
    KeptAreRecent(w, now);
    KeptSeesHistory(w, now, now - SECOND - 1);
    CountAfterAll(kept, now - SECOND - 1);
    var burst := now - Millis(w.limiter.burstWindowMs);
    KeptSeesHistory(w, now, Max(now - SECOND - 1, burst));
    CountAfterSame(kept, burst, Max(now - SECOND - 1, burst));
  }

  lemma KeptSeesHistory(w: World, now: int, lo: int)
    requires Remembers(w) && w.clock <= now && now - SECOND - 1 <= lo
    ensures Count(w.sent, lo, now) == CountAfter(Prune(w.limiter.stamps, now), lo)
  {
    PruneRemembers(w, now);
    CountRemembered(w.sent, Prune(w.limiter.stamps, now), lo, now);
  }

  /** A query goes through exactly when the last second of the history holds fewer sends than the rate, and
      the burst window, as far as it lies in that second, fewer than the burst limit. A refused query is
      counted as blocked; one the session fails is not counted at all. */
  lemma QueryExactly(w: World, delay: nat, ok: bool)
    requires Inv(w)
    ensures
      var now, l := w.clock + delay, w.limiter;
      var fits := RecentSends(w, now) < AsSize(l.rate) && RecentBurst(w, now) < l.burstLimit;
      var w' := Step(w, Query(delay, ok));
      && w'.clock == now
      && w'.sent == (if fits && ok then w.sent + [Send(now, l.rate, l.burstLimit, l.burstWindowMs)] else w.sent)
      && w'.limiter.total == l.total + (if fits && ok then 1 else 0)
      && w'.limiter.blocked == l.blocked + (if fits then 0 else 1)
      && (w'.limiter.rate, w'.limiter.burstLimit, w'.limiter.burstWindowMs) == (l.rate, l.burstLimit, l.burstWindowMs)
  {
    ChecksSeeHistory(w, w.clock + delay);
  }

  /** With the rate never set above `r`, every closed window of `k` seconds holds at most `k * r` sends. */
  lemma ManySecondsBound(w: World, events: seq<Event>, r: nat, k: nat, a: int)
    requires Inv(w) && RatesWithin(w, events, r) && 0 < k
    ensures Count(Run(w, events).sent, a - 1, a + Seconds(k)) <= k * r
  {
    RunKeepsInv(w, events);
    RatesStayWithin(w, events, r);
    HistoryBound(Run(w, events), r, k, a);
  }

  lemma HistoryBound(w: World, r: nat, k: nat, a: int)
    requires Inv(w) && RatesWithin(w, [], r) && 0 < k
    ensures Count(w.sent, a - 1, a + Seconds(k)) <= k * r
  {
    RateSpacedUniformly(w.sent, r);
    SpacedWindow(w.sent, r, k, Seconds(k) + 1, a + Seconds(k));
  }

  /** The shipped settings (10 a second, 50 in 5000 ms) keep the burst promise by the rate limit alone. */
  lemma DefaultBurstHolds(events: seq<Event>, t: int)
    requires forall e :: e in events ==> e.Query?
    ensures Count(Run(Start(10, 50, 5000), events).sent, t - Millis(5000), t) <= 50
  {
    var w := Start(10, 50, 5000);
    ManySecondsBound(w, events, 10, 5, t - Millis(5000) + 1);
    CountMonotone(Run(w, events).sent, t - Millis(5000), t, t + 1);
  }

  /** The rate in force never exceeds `r`: not at the start, not for a past send, not after any setting. */
  ghost predicate RatesWithin(w: World, events: seq<Event>, r: nat) {
    && AsSize(w.limiter.rate) <= r
    && (forall i :: 0 <= i < |w.sent| ==> AsSize(w.sent[i].rate) <= r)
    && (forall e :: e in events && e.SetRate? ==> AsSize(e.rate) <= r)
  }

  lemma {:induction false} RatesStayWithin(w: World, events: seq<Event>, r: nat)
    requires RatesWithin(w, events, r)
    ensures RatesWithin(Run(w, events), [], r)
  {
    if events != [] {
      var n := |events| - 1;
      assert events[n] in events;
      assert forall e :: e in events[..n] ==> e in events;
      RatesStayWithin(w, events[..n], r);
    }
  }

  /** Any `r + 1` consecutive sends span more than a second. */
  ghost predicate Spaced(sent: seq<Send>, r: nat) {
    forall i :: r <= i < |sent| ==> sent[i].time - sent[i - r].time > SECOND
  }

  lemma RateSpacedUniformly(sent: seq<Send>, r: nat)
    requires Sorted(sent)
    requires forall j :: 0 <= j < |sent| ==> RateSpaced(sent, j) && AsSize(sent[j].rate) <= r
    ensures Spaced(sent, r)
  {
    forall i | r <= i < |sent| ensures sent[i].time - sent[i - r].time > SECOND {
      assert RateSpaced(sent, i);
      assert sent[i - r].time <= sent[i - AsSize(sent[i].rate)].time;
    }
  }

  ghost function Times(k: nat, r: nat): nat {
    if k == 0 then 0 else Times(k - 1, r) + r
  }

  lemma {:induction false} TimesIsProduct(k: nat, r: nat)
    ensures Times(k, r) == k * r
  {
    if k > 0 {
      TimesIsProduct(k - 1, r);
      assert k * r == (k - 1) * r + r;
    }
  }

  lemma {:induction false} SpacedBySeconds(sent: seq<Send>, r: nat, k: nat, i: nat)
    requires Spaced(sent, r) && 0 < k && Times(k, r) <= i < |sent|
    ensures sent[i].time - sent[i - Times(k, r)].time >= Seconds(k) + k
  {
    assert sent[i].time - sent[i - r].time > SECOND;
    if k > 1 {
      SpacedBySeconds(sent, r, k - 1, i - r);
    }
  }

  lemma SpacedWindow(sent: seq<Send>, r: nat, k: nat, width: int, t: int)
    requires Sorted(sent) && Spaced(sent, r) && 0 < k && width <= Seconds(k) + k
    ensures Count(sent, t - width, t) <= k * r
  {
    var m := Times(k, r);
    forall i | m <= i < |sent| && t - width < sent[i].time <= t ensures sent[i - m].time <= t - width {
      SpacedBySeconds(sent, r, k, i);
    }
    CountSpaced(sent, t - width, t, m);
    TimesIsProduct(k, r);
  }

  lemma {:induction false} CountMonotone(sent: seq<Send>, lo: int, hi: int, hi': int)
    requires hi <= hi'
    ensures Count(sent, lo, hi) <= Count(sent, lo, hi')
  {
    if sent != [] {
      CountMonotone(sent[..|sent| - 1], lo, hi, hi');
    }
  }

  // ----- The burst limit -----

  /** A burst limit of at least the rate limit never refuses anything the rate limit let through. */
  lemma BurstBranchUnreachable(l: Limiter, now: int)
    requires AsSize(l.rate) <= l.burstLimit
    ensures BurstExceeded(l, now) ==> RateExceeded(l, now)
  {
  }

  ghost predicate OnlyQueries(events: seq<Event>) {
    forall e :: e in events ==> e.Query?
  }

  ghost function InWindow(w: World, windowMs: int, t: int): nat {
    Count(w.sent, t - Millis(windowMs), t)
  }

  /** What `set_burst_limit` promises: no window of `windowMs` ever holds more than `limit` sends, and with
      a negative limit nothing is ever sent. */
  ghost predicate BurstPromise(rate: Int32, limit: Int32, windowMs: Int32) {
    forall events, t :: OnlyQueries(events) ==>
      InWindow(Run(Start(rate, limit, windowMs), events), windowMs, t) <= Max(0, limit)
  }

  /** When the promise can be kept although only the last second is remembered: `Min(rate, limit)` sends fit
      in a second, and a window of `w` ticks touches `(w - 1) / 1_000_000_001 + 1` of them. A negative rate,
      cast to `size_t`, is no rate limit at all. */
  predicate BurstSettingsSafe(rate: Int32, limit: Int32, windowMs: Int32) {
    || windowMs <= 0 || limit <= 0
    || Min(AsSize(rate), limit) * ((Millis(windowMs) - 1) / 1_000_000_001 + 1) <= limit
  }

  ghost predicate Fixed(w: World, rate: Int32, limit: Int32, windowMs: Int32) {
    && (w.limiter.rate, w.limiter.burstLimit, w.limiter.burstWindowMs) == (rate, limit, windowMs)
    && forall i :: 0 <= i < |w.sent| ==>
         w.sent[i].rate == rate && w.sent[i].burstLimit == limit && w.sent[i].burstWindowMs == windowMs
  }

  /** The settings of every send of a run without setters are the initial ones. */
  lemma {:induction false} SettingsFixed(rate: Int32, limit: Int32, windowMs: Int32, events: seq<Event>)
    requires OnlyQueries(events)
    ensures Fixed(Run(Start(rate, limit, windowMs), events), rate, limit, windowMs)
  {
    if events != [] {
      assert events[|events| - 1] in events;
      SettingsFixed(rate, limit, windowMs, events[..|events| - 1]);
    }
  }

  lemma BurstSafeShort(sent: seq<Send>, limit: nat, windowMs: Int32, t: int)
    requires Sorted(sent) && windowMs <= 1000
    requires forall i :: 0 <= i < |sent| ==> BurstSpaced(sent, i)
    requires forall i :: 0 <= i < |sent| ==> sent[i].burstLimit == limit && sent[i].burstWindowMs == windowMs
    ensures Count(sent, t - Millis(windowMs), t) <= limit
  {
    var lo := t - Millis(windowMs);
    forall i | limit <= i < |sent| && lo < sent[i].time <= t ensures sent[i - limit].time <= lo {
      assert BurstSpaced(sent, i);
    }
    CountSpaced(sent, lo, t, limit);
  }

  lemma BurstSafeLong(sent: seq<Send>, rate: nat, limit: nat, width: nat, t: int)
    requires Sorted(sent) && width > SECOND + 1
    requires forall i :: 0 <= i < |sent| ==> RateSpaced(sent, i) && AsSize(sent[i].rate) <= rate
    requires sent != [] ==> 0 < limit
    requires Min(rate, limit) * ((width - 1) / 1_000_000_001 + 1) <= limit
    ensures Count(sent, t - width, t) <= limit
  {
    var q := (width - 1) / 1_000_000_001;
    assert q >= 1 && width <= Seconds(q + 1) + q + 1;
    if limit < rate {
      SafeMeansZero(limit, q);
      assert sent == [];
    } else {
      RateSpacedUniformly(sent, rate);
      SpacedWindow(sent, rate, q + 1, width, t);
    }
  }

  lemma BurstSafe(rate: Int32, limit: Int32, windowMs: Int32, events: seq<Event>, t: int)
    requires BurstSettingsSafe(rate, limit, windowMs) && OnlyQueries(events)
    ensures InWindow(Run(Start(rate, limit, windowMs), events), windowMs, t) <= Max(0, limit)
  {
    RunKeepsInv(Start(rate, limit, windowMs), events);
    SettingsFixed(rate, limit, windowMs, events);
    FixedSafe(Run(Start(rate, limit, windowMs), events), rate, limit, windowMs, t);
  }

  lemma FixedSafe(w: World, rate: Int32, limit: Int32, windowMs: Int32, t: int)
    requires BurstSettingsSafe(rate, limit, windowMs)
    requires Inv(w) && Fixed(w, rate, limit, windowMs)
    ensures InWindow(w, windowMs, t) <= Max(0, limit)
  {
    SomethingSent(w, limit);
    if limit <= 0 {
      assert w.sent == [];
    } else if windowMs <= 1000 {
      BurstSafeShort(w.sent, limit, windowMs, t);
    } else {
      BurstSafeLong(w.sent, AsSize(rate), limit, Millis(windowMs), t);
    }
  }

  lemma SomethingSent(w: World, limit: int)
    requires Inv(w) && forall i :: 0 <= i < |w.sent| ==> w.sent[i].burstLimit == limit
    ensures w.sent != [] ==> 0 < limit
  {
    assert w.sent != [] ==> BurstSpaced(w.sent, 0);
  }

  lemma SafeMeansZero(limit: nat, q: nat)
    requires q >= 1 && limit * (q + 1) <= limit
    ensures limit == 0
  {
    assert limit * (q + 1) == limit * q + limit;
    if limit > 0 {
      assert limit * q >= q by { MulGrows(limit, q); }
    }
  }

  lemma MulGrows(a: nat, b: nat)
    requires a >= 1
    ensures a * b >= b
  {
    assert a * b == (a - 1) * b + b;
    assert (a - 1) * b >= 0;
  }

  // ----- The settings that break the promise: full batches just over a second apart -----

  ghost function Batch(m: nat): seq<Event> {
    if m == 0 then [] else Batch(m - 1) + [Query(if m == 1 then 1_000_000_001 else 0, true)]
  }

  ghost function Batches(m: nat, k: nat): seq<Event> {
    if k == 0 then [] else Batches(m, k - 1) + Batch(m)
  }

  lemma {:induction false} RunConcat(w: World, a: seq<Event>, b: seq<Event>)
    ensures Run(w, a + b) == Run(Run(w, a), b)
  {
    if b == [] {
      assert a + b == a;
    } else {
      var n := |b| - 1;
      assert (a + b)[..|a + b| - 1] == a + b[..n];
      RunConcat(w, a, b[..n]);
    }
  }

  lemma {:induction false} PruneAll(stamps: seq<int>, now: int)
    requires forall i :: 0 <= i < |stamps| ==> now - stamps[i] > SECOND
    ensures Prune(stamps, now) == []
  {
    if stamps != [] { PruneAll(stamps[1..], now); }
  }

  ghost predicate Admits(l: Limiter, m: nat) {
    m <= AsSize(l.rate) && m <= l.burstLimit
  }

  /** The state after `j` sends of a batch that started from `w`. */
  ghost predicate AfterBatch(w: World, j: nat, w': World) {
    && w'.clock == w.clock + SECOND + 1
    && w'.limiter.(stamps := [], total := 0) == w.limiter.(stamps := [], total := 0)
    && |w'.limiter.stamps| == j && (forall i :: 0 <= i < j ==> w'.limiter.stamps[i] == w'.clock)
    && |w'.sent| == |w.sent| + j && w'.sent[..|w.sent|] == w.sent
    && (forall i :: |w.sent| <= i < |w'.sent| ==> w'.sent[i].time == w'.clock)
  }

  lemma {:induction false} BatchSends(w: World, m: nat, j: nat)
    requires 1 <= j <= m && Admits(w.limiter, m)
    requires forall i :: 0 <= i < |w.limiter.stamps| ==> w.limiter.stamps[i] <= w.clock
    ensures AfterBatch(w, j, Run(w, Batch(j)))
  {
    var last := if j == 1 then Query(1_000_000_001, true) else Query(0, true);
    assert Batch(j)[..|Batch(j)| - 1] == Batch(j - 1);
    var u := Run(w, Batch(j - 1));
    assert Run(w, Batch(j)) == Step(u, last);
    if j == 1 {
      FirstOfBatch(w, m);
    } else {
      BatchSends(w, m, j - 1);
      NextOfBatch(w, m, j, u);
    }
  }

  lemma FirstOfBatch(w: World, m: nat)
    requires 1 <= m && Admits(w.limiter, m)
    requires forall i :: 0 <= i < |w.limiter.stamps| ==> w.limiter.stamps[i] <= w.clock
    ensures AfterBatch(w, 1, Step(w, Query(1_000_000_001, true)))
  {
    PruneAll(w.limiter.stamps, w.clock + 1_000_000_001);
  }

  lemma NextOfBatch(w: World, m: nat, j: nat, u: World)
    requires 1 < j <= m && Admits(w.limiter, m) && AfterBatch(w, j - 1, u)
    ensures AfterBatch(w, j, Step(u, Query(0, true)))
  {
    assert Prune(u.limiter.stamps, u.clock) == u.limiter.stamps;
    assert !RateExceeded(u.limiter, u.clock) && !BurstExceeded(u.limiter, u.clock);
    var u' := Step(u, Query(0, true));
    assert u'.sent[..|w.sent|] == u.sent[..|w.sent|];
  }

  lemma {:induction false} BatchesSend(w: World, m: nat, k: nat)
    requires w.limiter.stamps == [] && w.sent == [] && w.clock == 0 && 1 <= m && Admits(w.limiter, m)
    ensures
      var w' := Run(w, Batches(m, k));
      && w'.clock == Seconds(k) + k
      && Admits(w'.limiter, m)
      && |w'.sent| == Times(k, m)
      && (forall i :: 0 <= i < |w'.limiter.stamps| ==> w'.limiter.stamps[i] <= w'.clock)
      && (forall i :: 0 <= i < |w'.sent| ==> SECOND < w'.sent[i].time <= w'.clock)
  {
    if k > 0 {
      BatchesSend(w, m, k - 1);
      var u := Run(w, Batches(m, k - 1));
      RunConcat(w, Batches(m, k - 1), Batch(m));
      BatchSends(u, m, m);
      var w' := Run(w, Batches(m, k));
      forall i | 0 <= i < |w'.sent| ensures SECOND < w'.sent[i].time <= w'.clock {
        if i < |u.sent| { assert w'.sent[i] == w'.sent[..|u.sent|][i]; }
      }
    }
  }

  lemma {:induction false} CountAll(sent: seq<Send>, lo: int, hi: int)
    requires forall i :: 0 <= i < |sent| ==> lo < sent[i].time <= hi
    ensures Count(sent, lo, hi) == |sent|
  {
    if sent != [] { CountAll(sent[..|sent| - 1], lo, hi); }
  }

  lemma {:induction false} BatchesAreQueries(m: nat, k: nat)
    ensures OnlyQueries(Batch(m)) && OnlyQueries(Batches(m, k))
    decreases k, m
  {
    if m > 0 { BatchesAreQueries(m - 1, 0); }
    if k > 0 { BatchesAreQueries(m, k - 1); }
  }

  lemma BatchesOverfill(w: World, m: nat, k: nat, width: nat)
    requires w.limiter.stamps == [] && w.sent == [] && w.clock == 0 && 1 <= m && Admits(w.limiter, m)
    requires 1 <= k && Seconds(k - 1) + k - 1 < width
    ensures var w' := Run(w, Batches(m, k)); Count(w'.sent, w'.clock - width, w'.clock) == m * k
    ensures OnlyQueries(Batches(m, k))
  {
    BatchesSend(w, m, k);
    BatchesAreQueries(m, k);
    var w' := Run(w, Batches(m, k));
    CountAll(w'.sent, w'.clock - width, w'.clock);
    TimesIsProduct(k, m);
  }

  lemma BurstBroken(rate: Int32, limit: Int32, windowMs: Int32)
    requires !BurstSettingsSafe(rate, limit, windowMs)
    ensures !BurstPromise(rate, limit, windowMs)
  {
    var k := (Millis(windowMs) - 1) / 1_000_000_001 + 1;
    assert Seconds(k - 1) + k - 1 < Millis(windowMs);
    PositiveFactor(Min(AsSize(rate), limit), k);
    BatchesBreak(rate, limit, windowMs, Min(AsSize(rate), limit), k);
  }

  lemma PositiveFactor(m: nat, k: nat)
    ensures 0 < m * k ==> 1 <= m
  {
  }

  lemma BatchesBreak(rate: Int32, limit: Int32, windowMs: Int32, m: nat, k: nat)
    requires 1 <= m && m <= AsSize(rate) && m <= limit < m * k
    requires 1 <= k && Seconds(k - 1) + k - 1 < Millis(windowMs)
    ensures !BurstPromise(rate, limit, windowMs)
  {
    var w := Start(rate, limit, windowMs);
    BatchesOverfill(w, m, k, Millis(windowMs));
    var w' := Run(w, Batches(m, k));
    assert OnlyQueries(Batches(m, k)) && InWindow(w', windowMs, w'.clock) > Max(0, limit);
  }

  /** The burst promise holds on every run exactly for the settings `BurstSettingsSafe` names; in
      particular for every window of at most one second, and for the shipped 10 / 50 / 5000. */
  lemma BurstPromiseExactly(rate: Int32, limit: Int32, windowMs: Int32)
    ensures BurstPromise(rate, limit, windowMs) <==> BurstSettingsSafe(rate, limit, windowMs)
  {
    if BurstSettingsSafe(rate, limit, windowMs) {
      forall events, t | OnlyQueries(events)
        ensures InWindow(Run(Start(rate, limit, windowMs), events), windowMs, t) <= Max(0, limit)
      {
        BurstSafe(rate, limit, windowMs, events, t);
      }
    } else {
      BurstBroken(rate, limit, windowMs);
    }
  }

  /** Windows of at most a second are always safe; a longer one is not when the rate exceeds the limit. */
  lemma BurstSafeCases(rate: Int32, limit: Int32, windowMs: Int32)
    ensures windowMs <= 1000 ==> BurstSettingsSafe(rate, limit, windowMs)
    ensures windowMs > 1000 && 0 < limit < AsSize(rate) ==> !BurstSettingsSafe(rate, limit, windowMs)
    ensures BurstSettingsSafe(10, 50, 5000)
  {
    var q := (Millis(windowMs) - 1) / 1_000_000_001;
    if 0 < windowMs <= 1000 {
      assert q == 0;
    } else if windowMs > 1000 && 0 < limit < AsSize(rate) && BurstSettingsSafe(rate, limit, windowMs) {
      assert q >= 1;
      SafeMeansZero(limit, q);
    }
  }
}
