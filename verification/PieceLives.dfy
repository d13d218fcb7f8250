/** The life of one metadata piece, told without the store: the reference the piece store is compared with. */
module PieceLives {
  import opened Wrappers
  import opened Machine
  import opened PieceStore

  /** A stored piece with every verdict passed on it since it was created; `start` is its score before the
      first one. */
  datatype Life = Life(
    status: PieceStatus,
    data: seq<Byte>,
    due: int,
    lastRequest: int,
    requests: nat,
    start: real,
    verdicts: seq<bool>)

  /** The life of piece `index` of `hash` through one event. */
  function Lived(life: Option<Life>, e: Event, hash: string, index: int, c: Config): Option<Life> {
    match e
    case Add(h, i, data, now) =>
      if (h, i) == (hash, index) && |h| == 40 && i >= 0 && 0 < |data| <= c.maxPieceSize then
        Some(Life(RECEIVED, data, now + Millis(c.pieceTimeoutMs), 0, 0, 1.0, []))
      else life
    case Request(h, i, now) =>
      if (h, i) != (hash, index) || |h| != 40 || i < 0 then life
      else if life.None? then Some(Life(REQUESTED, [], now + Millis(c.pieceTimeoutMs), now, 1, 0.0, []))
      else if life.value.status == REQUESTED then life
      else Some(life.value.(status := REQUESTED, lastRequest := now, requests := life.value.requests + 1))
    case Receive(h, i, data, now) =>
      if (h, i) == (hash, index) && |h| == 40 && i >= 0 && 0 < |data| <= c.maxPieceSize && life.Some? then
        Some(life.value.(status := RECEIVED, data := data, due := now + Millis(c.pieceTimeoutMs),
                         verdicts := life.value.verdicts + [true]))
      else life
    case MarkAs(h, i, status) =>
      if (h, i) != (hash, index) || |h| != 40 || i < 0 || life.None? then life
      else if status == DUPLICATE then Some(life.value.(status := status))
      else Some(life.value.(status := status, verdicts := life.value.verdicts + [false]))
    case Force(h, i) =>
      if (h, i) != (hash, index) || life.None? || life.value.data == [] then life
      else
        var fits := |life.value.data| <= c.maxPieceSize;
        Some(life.value.(status := if fits then VALIDATED else INVALID, verdicts := life.value.verdicts + [fits]))
    case Monitor(now) =>
      if life.Some? && life.value.status == REQUESTED && now > life.value.lastRequest + Millis(c.pieceTimeoutMs) then
        Some(life.value.(status := EXPIRED))
      else life
    case Purge(now) => if life.Some? && life.value.due < now then None else life
    case Drop(h, i) => if (h, i) == (hash, index) then None else life
    case Clear(h) => if h == hash then None else life
    case ClearAll => None
    case Configure(_) => life
  }

  ghost function LifeOf(c: Config, events: seq<Event>, hash: string, index: int): Option<Life> {
    if events == [] then None
    else
      var front := events[..|events| - 1];
      Lived(LifeOf(c, front, hash, index), events[|events| - 1], hash, index, Run(c, front).config)
  }

  /** How many verdicts were `v`. */
  ghost function Count(verdicts: seq<bool>, v: bool): nat {
    if verdicts == [] then 0
    else Count(verdicts[..|verdicts| - 1], v) + if verdicts[|verdicts| - 1] == v then 1 else 0
  }

  lemma CountMore(verdicts: seq<bool>, x: bool, v: bool)
    ensures Count(verdicts + [x], v) == Count(verdicts, v) + if x == v then 1 else 0
  {
    assert (verdicts + [x])[..|verdicts|] == verdicts;
  }

  /** The stored piece sums up its life: good verdicts, bad verdicts, and the share of good ones. */
  ghost predicate SumsUp(p: Piece, life: Life) {
    && (p.status, p.data, p.expiresAt) == (life.status, life.data, life.due)
    && (p.lastRequest, p.requestCount) == (life.lastRequest, life.requests)
    && p.successes == Count(life.verdicts, true) && p.failures == Count(life.verdicts, false)
    && p.attempts == |life.verdicts|
    && p.quality == if life.verdicts == [] then life.start
                    else Count(life.verdicts, true) as real / |life.verdicts| as real
  }

  ghost predicate Agrees(s: Store, hash: string, index: int, life: Option<Life>) {
    (Has(s, hash, index) <==> life.Some?) && (life.Some? ==> SumsUp(s[hash][index], life.value))
  }

  lemma JudgedSumsUp(p: Piece, q: Piece, life: Life, status: PieceStatus, v: bool)
    requires SumsUp(p, life) && q == p.(status := status)
    ensures SumsUp(Judged(q, v), life.(status := status, verdicts := life.verdicts + [v]))
  {
    CountMore(life.verdicts, v, true);
    CountMore(life.verdicts, v, false);
  }

  lemma ReceivedSumsUp(p: Piece, life: Life, data: seq<Byte>, due: int)
    requires SumsUp(p, life)
    ensures SumsUp(Judged(p.(status := RECEIVED, data := data, expiresAt := due), true),
                   life.(status := RECEIVED, data := data, due := due, verdicts := life.verdicts + [true]))
  {
    CountMore(life.verdicts, true, true);
    CountMore(life.verdicts, true, false);
  }

  lemma AddAgrees(w: World, e: Event, hash: string, index: int, life: Option<Life>)
    requires (e.Add? || e.Request?) && Agrees(w.store, hash, index, life)
    ensures Agrees(Step(w, e).store, hash, index, Lived(life, e, hash, index, w.config))
  {
  }

  lemma ReceiveAgrees(w: World, e: Event, hash: string, index: int, life: Option<Life>)
    requires e.Receive? && Agrees(w.store, hash, index, life)
    ensures Agrees(Step(w, e).store, hash, index, Lived(life, e, hash, index, w.config))
  {
    if (e.hash, e.index) == (hash, index) && life.Some? {
      ReceivedSumsUp(w.store[hash][index], life.value, e.data, e.now + Millis(w.config.pieceTimeoutMs));
    }
  }

  lemma MarkAgrees(w: World, e: Event, hash: string, index: int, life: Option<Life>)
    requires e.MarkAs? && Agrees(w.store, hash, index, life)
    ensures Agrees(Step(w, e).store, hash, index, Lived(life, e, hash, index, w.config))
  {
    if (e.hash, e.index) == (hash, index) && life.Some? {
      var p := w.store[hash][index];
      JudgedSumsUp(p, p.(status := e.status), life.value, e.status, false);
    }
  }

  lemma ForceAgrees(w: World, e: Event, hash: string, index: int, life: Option<Life>)
    requires e.Force? && Agrees(w.store, hash, index, life)
    ensures Agrees(Step(w, e).store, hash, index, Lived(life, e, hash, index, w.config))
  {
    if (e.hash, e.index) == (hash, index) && life.Some? {
      var p := w.store[hash][index];
      JudgedSumsUp(p, p.(status := VALIDATED), life.value, VALIDATED, true);
      JudgedSumsUp(p, p.(status := INVALID), life.value, INVALID, false);
    }
  }

  lemma SweepAgrees(w: World, e: Event, hash: string, index: int, life: Option<Life>)
    requires !e.Add? && !e.Request? && !e.Receive? && !e.MarkAs? && !e.Force? && Agrees(w.store, hash, index, life)
    ensures Agrees(Step(w, e).store, hash, index, Lived(life, e, hash, index, w.config))
  {
  }

  /** In every run a piece is stored exactly while it lives, with the data, status and deadlines of its life,
      and its counters and score count the verdicts passed on it: receipts and successful validations as
      good, invalid and corrupted marks and failed validations as bad. */
  lemma {:induction false} StoreTellsLives(c: Config, events: seq<Event>, hash: string, index: int)
    ensures Agrees(Run(c, events).store, hash, index, LifeOf(c, events, hash, index))
  {
    if events != [] {
      var n := |events| - 1;
      StoreTellsLives(c, events[..n], hash, index);
      var w, e, life := Run(c, events[..n]), events[n], LifeOf(c, events[..n], hash, index);
      if e.Add? || e.Request? {
        AddAgrees(w, e, hash, index, life);
      } else if e.Receive? {
        ReceiveAgrees(w, e, hash, index, life);
      } else if e.MarkAs? {
        MarkAgrees(w, e, hash, index, life);
      } else if e.Force? {
        ForceAgrees(w, e, hash, index, life);
      } else {
        SweepAgrees(w, e, hash, index, life);
      }
    }
  }

  /** What the calls report: a piece is accepted when hash, index and data are valid; requested unless that
      is already so; received or marked only if it is stored; and validated if its data fits. */
  lemma ReportsExactly(w: World, h: string, i: int, data: seq<Byte>, status: PieceStatus, now: int)
    ensures
      var c, s := w.config, w.store;
      var key, fits, stored := |h| == 40 && i >= 0, 0 < |data| <= c.maxPieceSize, h in s && i in s[h];
      && (AddPiece(c, s, h, i, data, now).1 <==> key && fits)
      && (RequestPiece(c, s, h, i, now).1 <==> key && !(stored && s[h][i].status == REQUESTED))
      && (MarkReceived(c, s, h, i, data, now).1 <==> key && fits && stored)
      && (MarkBad(s, h, i, status).1 <==> key && stored)
      && (ForceValidation(c, s, h, i).1 <==> stored && 0 < |s[h][i].data| <= c.maxPieceSize)
  {
  }

  /** A good verdict never lowers a share of good verdicts, and a bad one never raises it. */
  lemma ShareMoves(good: nat, all: nat)
    requires good <= all && 0 < all
    ensures (good + 1) as real / (all + 1) as real >= good as real / all as real
    ensures good as real / (all + 1) as real <= good as real / all as real
  {
    var q := good as real / all as real;
    assert q * all as real == good as real && 0.0 <= q <= 1.0;
    assert q * (all + 1) as real == good as real + q;
    AtLeast((good + 1) as real, (all + 1) as real, q);
    AtMost(good as real, (all + 1) as real, q);
  }

  lemma AtLeast(x: real, y: real, q: real)
    requires y > 0.0 && x >= q * y
    ensures x / y >= q
  {
    assert x / y * y == x;
  }

  lemma AtMost(x: real, y: real, q: real)
    requires y > 0.0 && x <= q * y
    ensures x / y <= q
  {
    assert x / y * y == x;
  }

  /** In every run a receipt never lowers a piece's score and a bad mark never raises it. */
  lemma ScoreMoves(c: Config, events: seq<Event>, e: Event)
    requires (e.Receive? || e.MarkAs?) && Has(Run(c, events).store, e.hash, e.index)
    ensures
      var w := Run(c, events);
      var s' := Step(w, e).store;
      && Has(s', e.hash, e.index)
      && (e.Receive? ==> s'[e.hash][e.index].quality >= w.store[e.hash][e.index].quality)
      && (e.MarkAs? ==> s'[e.hash][e.index].quality <= w.store[e.hash][e.index].quality)
  {
    var size := SomeSizeBound(c, events);
    ReachableGood(c, events, size);
    assert GoodPiece(Run(c, events).store[e.hash][e.index]);
    if e.Receive? {
      ReceiptRaises(Run(c, events), e);
    } else {
      MarkLowers(Run(c, events), e);
    }
  }

  lemma ReceiptRaises(w: World, e: Event)
    requires e.Receive? && Has(w.store, e.hash, e.index) && GoodPiece(w.store[e.hash][e.index])
    ensures
      var s' := Step(w, e).store;
      Has(s', e.hash, e.index) && s'[e.hash][e.index].quality >= w.store[e.hash][e.index].quality
  {
    var p := w.store[e.hash][e.index];
    JudgedMoves(p, p.(status := RECEIVED, data := e.data, expiresAt := e.now + Millis(w.config.pieceTimeoutMs)));
  }

  lemma MarkLowers(w: World, e: Event)
    requires e.MarkAs? && Has(w.store, e.hash, e.index) && GoodPiece(w.store[e.hash][e.index])
    ensures
      var s' := Step(w, e).store;
      Has(s', e.hash, e.index) && s'[e.hash][e.index].quality <= w.store[e.hash][e.index].quality
  {
    var p := w.store[e.hash][e.index];
    JudgedMoves(p, p.(status := e.status));
  }

  lemma JudgedMoves(p: Piece, q: Piece)
    requires GoodPiece(p) && (q.successes, q.failures, q.attempts) == (p.successes, p.failures, p.attempts)
    ensures Judged(q, true).quality >= p.quality && Judged(q, false).quality <= p.quality
  {
    if p.attempts > 0 {
      ShareMoves(p.successes, p.attempts);
    }
  }
}
