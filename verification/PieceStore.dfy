/** The metadata piece store (`MetadataPieceManager`): pieces by info hash and index, with validation
    counts and a quality score. */
module PieceStore {
  import opened Wrappers
  import opened Machine

  datatype PieceStatus = MISSING | REQUESTED | RECEIVED | VALIDATED | INVALID | DUPLICATE | CORRUPTED | EXPIRED

  datatype Piece = Piece(
    status: PieceStatus,
    data: seq<Byte>,
    expiresAt: int,
    lastRequest: int,
    requestCount: nat,
    quality: real,
    attempts: nat,
    successes: nat,
    failures: nat)

  datatype Config = Config(maxPieceSize: nat, maxTotalSize: nat, pieceTimeoutMs: int)

  type Shelf = map<int, Piece>
  type Store = map<string, Shelf>

  predicate ValidKey(hash: string, index: int) {
    |hash| == 40 && index >= 0
  }

  predicate ValidData(c: Config, data: seq<Byte>) {
    data != [] && |data| <= c.maxPieceSize
  }

  /** `pieces_[hash]`, which makes an empty shelf when there is none. */
  function ShelfOf(s: Store, hash: string): Shelf {
    if hash in s then s[hash] else map[]
  }

  predicate Has(s: Store, hash: string, index: int) {
    hash in s && index in s[hash]
  }

  function Put(s: Store, hash: string, index: int, p: Piece): Store {
    s[hash := ShelfOf(s, hash)[index := p]]
  }

  /** `updatePieceQuality`. */
  function Judged(p: Piece, success: bool): Piece {
    var good := p.successes + if success then 1 else 0;
    var bad := p.failures + if success then 0 else 1;
    p.(successes := good, failures := bad, attempts := p.attempts + 1,
       quality := good as real / (p.attempts + 1) as real)
  }

  // ----- The calls, with what they return -----

  function AddPiece(c: Config, s: Store, hash: string, index: int, data: seq<Byte>, now: int): (Store, bool) {
    if !ValidKey(hash, index) || !ValidData(c, data) then (s, false)
    else (Put(s, hash, index, Piece(RECEIVED, data, now + Millis(c.pieceTimeoutMs), 0, 0, 1.0, 0, 0, 0)), true)
  }

  function RequestPiece(c: Config, s: Store, hash: string, index: int, now: int): (Store, bool) {
    if !ValidKey(hash, index) then (s, false)
    else if Has(s, hash, index) then
      var p := s[hash][index];
      if p.status == REQUESTED then (s, false)
      else (Put(s, hash, index, p.(status := REQUESTED, requestCount := p.requestCount + 1, lastRequest := now)), true)
    else (Put(s, hash, index, Piece(REQUESTED, [], now + Millis(c.pieceTimeoutMs), now, 1, 0.0, 0, 0, 0)), true)
  }

  /** A call on a missing piece leaves an empty shelf behind and reports failure. */
  function Missed(s: Store, hash: string): Store {
    s[hash := ShelfOf(s, hash)]
  }

  function MarkReceived(c: Config, s: Store, hash: string, index: int, data: seq<Byte>, now: int): (Store, bool) {
    if !ValidKey(hash, index) || !ValidData(c, data) then (s, false)
    else if !Has(s, hash, index) then (Missed(s, hash), false)
    else
      var p := s[hash][index].(status := RECEIVED, data := data, expiresAt := now + Millis(c.pieceTimeoutMs));
      (Put(s, hash, index, Judged(p, true)), true)
  }

  /** `markPieceInvalid` and `markPieceCorrupted` judge the piece a failure; `markPieceDuplicate` does not
      judge it. */
  function MarkBad(s: Store, hash: string, index: int, status: PieceStatus): (Store, bool) {
    if !ValidKey(hash, index) then (s, false)
    else if !Has(s, hash, index) then (Missed(s, hash), false)
    else
      var p := s[hash][index].(status := status);
      (Put(s, hash, index, if status == DUPLICATE then p else Judged(p, false)), true)
  }

  function ForceValidation(c: Config, s: Store, hash: string, index: int): (Store, bool) {
    if !Has(s, hash, index) || s[hash][index].data == [] then (s, false)
    else
      var p := s[hash][index];
      if ValidData(c, p.data) then (Put(s, hash, index, Judged(p.(status := VALIDATED), true)), true)
      else (Put(s, hash, index, Judged(p.(status := INVALID), false)), false)
  }

  /** One pass of `monitorPieces`. */
  function Monitored(c: Config, s: Store, now: int): Store {
    map h | h in s :: map i | i in s[h] ::
      if s[h][i].status == REQUESTED && now - s[h][i].lastRequest > Millis(c.pieceTimeoutMs)
      then s[h][i].(status := EXPIRED) else s[h][i]
  }

  /** `cleanupExpiredPieces` and `clearExpiredPieces`. */
  function Purged(s: Store, now: int): Store {
    map h | h in s :: map i | i in s[h] && now <= s[h][i].expiresAt :: s[h][i]
  }

  /** `validatePieceManagerIntegrity`. */
  ghost predicate Intact(c: Config, s: Store) {
    forall h, i :: Has(s, h, i) ==> |s[h][i].data| <= c.maxPieceSize && 0.0 <= s[h][i].quality <= 1.0
  }

  /** `repairPieceManager`: `total` is the number of pieces. The limit divides by the piece size; None when
      that is a division by zero. */
  ghost function Repaired(c: Config, s: Store, total: nat, now: int): Option<Store> {
    var s', total' := if Intact(c, s) then s else map[], if Intact(c, s) then total else 0;
    if c.maxPieceSize == 0 then None
    else if total' > c.maxTotalSize / c.maxPieceSize * 10 then Some(Purged(s', now))
    else Some(s')
  }

  class MetadataPieceManager {
    var config: Config
    var pieces: Store

    constructor (config: Config)
      ensures pieces == map[] && this.config == config
    {
      this.config, pieces := config, map[];
    }

    method UpdateConfig(config: Config)
      modifies `config
      ensures this.config == config
    {
      this.config := config;
    }

    method Add(hash: string, index: int, data: seq<Byte>, now: int) returns (ok: bool)
      modifies `pieces
      ensures (pieces, ok) == AddPiece(config, old(pieces), hash, index, data, now)
    {
      if !ValidKey(hash, index) || !ValidData(config, data) {
        return false;
      }
      var p := Piece(RECEIVED, data, now + Millis(config.pieceTimeoutMs), 0, 0, 1.0, 0, 0, 0);
      pieces := pieces[hash := ShelfOf(pieces, hash)[index := p]];
      return true;
    }

    method Received(hash: string, index: int, data: seq<Byte>, now: int) returns (ok: bool)
      modifies `pieces
      ensures (pieces, ok) == MarkReceived(config, old(pieces), hash, index, data, now)
    {
      if !ValidKey(hash, index) || !ValidData(config, data) {
        return false;
      }
      var shelf := ShelfOf(pieces, hash);
      pieces := pieces[hash := shelf];
      if index !in shelf {
        return false;
      }
      var p := shelf[index].(status := RECEIVED, data := data, expiresAt := now + Millis(config.pieceTimeoutMs));
      pieces := pieces[hash := shelf[index := Judged(p, true)]];
      assert pieces == Put(old(pieces), hash, index, Judged(p, true));
      return true;
    }

    method Request(hash: string, index: int, now: int) returns (ok: bool)
      modifies `pieces
      ensures (pieces, ok) == RequestPiece(config, old(pieces), hash, index, now)
    {
      if !ValidKey(hash, index) {
        return false;
      }
      var shelf := ShelfOf(pieces, hash);
      if index in shelf {
        if shelf[index].status == REQUESTED {
          return false;
        }
        var p := shelf[index].(status := REQUESTED, requestCount := shelf[index].requestCount + 1, lastRequest := now);
        pieces := pieces[hash := shelf[index := p]];
      } else {
        var p := Piece(REQUESTED, [], now + Millis(config.pieceTimeoutMs), now, 1, 0.0, 0, 0, 0);
        pieces := pieces[hash := shelf[index := p]];
      }
      return true;
    }

    /** `markPieceInvalid`, `markPieceCorrupted` and `markPieceDuplicate`. */
    method MarkAs(hash: string, index: int, status: PieceStatus) returns (ok: bool)
      modifies `pieces
      ensures (pieces, ok) == MarkBad(old(pieces), hash, index, status)
    {
      if !ValidKey(hash, index) {
        return false;
      }
      var shelf := ShelfOf(pieces, hash);
      pieces := pieces[hash := shelf];
      if index !in shelf {
        return false;
      }
      var p := shelf[index].(status := status);
      if status != DUPLICATE {
        p := Judged(p, false);
      }
      pieces := pieces[hash := shelf[index := p]];
      assert pieces == Put(old(pieces), hash, index, p);
      return true;
    }

    method Force(hash: string, index: int) returns (ok: bool)
      modifies `pieces
      ensures (pieces, ok) == ForceValidation(config, old(pieces), hash, index)
    {
      if hash !in pieces || index !in pieces[hash] || pieces[hash][index].data == [] {
        return false;
      }
      var p := pieces[hash][index];
      ok := ValidData(config, p.data);
      p := Judged(p.(status := if ok then VALIDATED else INVALID), ok);
      pieces := pieces[hash := pieces[hash][index := p]];
    }

    method ValidateIntegrity() returns (ok: bool)
      ensures ok == Intact(config, pieces)
    {
      var hashes := pieces.Keys;
      while hashes != {}
        invariant hashes <= pieces.Keys
        invariant forall h, i :: Has(pieces, h, i) && h !in hashes ==> SoundPiece(config, pieces[h][i])
        decreases hashes
      {
        var h :| h in hashes;
        var sound := ValidateShelf(config, pieces[h]);
        if !sound {
          var i :| i in pieces[h] && !SoundPiece(config, pieces[h][i]);
          assert Has(pieces, h, i);
          return false;
        }
        hashes := hashes - {h};
      }
      return true;
    }
  }

  method ValidateShelf(c: Config, shelf: Shelf) returns (ok: bool)
    ensures ok == forall i :: i in shelf ==> SoundPiece(c, shelf[i])
  {
    var indices := shelf.Keys;
    while exists i :: i in indices
      invariant indices <= shelf.Keys
      invariant forall i :: i in shelf && i !in indices ==> SoundPiece(c, shelf[i])
      decreases indices
    {
      var i :| i in indices;
      var p := shelf[i];
      if |p.data| > c.maxPieceSize || p.quality < 0.0 || p.quality > 1.0 {
        return false;
      }
      indices := indices - {i};
    }
    return true;
  }

  predicate SoundPiece(c: Config, p: Piece) {
    |p.data| <= c.maxPieceSize && 0.0 <= p.quality <= 1.0
  }

  // ----- Runs -----

  datatype Event =
    | Add(hash: string, index: int, data: seq<Byte>, now: int)
    | Request(hash: string, index: int, now: int)
    | Receive(hash: string, index: int, data: seq<Byte>, now: int)
    | MarkAs(hash: string, index: int, status: PieceStatus)
    | Force(hash: string, index: int)
    | Monitor(now: int)
    | Purge(now: int)
    | Drop(hash: string, index: int)
    | Clear(hash: string)
    | ClearAll
    | Configure(config: Config)

  datatype World = World(config: Config, store: Store)

  function Step(w: World, e: Event): World {
    var c, s := w.config, w.store;
    match e
    case Add(h, i, data, now) => w.(store := AddPiece(c, s, h, i, data, now).0)
    case Request(h, i, now) => w.(store := RequestPiece(c, s, h, i, now).0)
    case Receive(h, i, data, now) => w.(store := MarkReceived(c, s, h, i, data, now).0)
    case MarkAs(h, i, status) => w.(store := MarkBad(s, h, i, status).0)
    case Force(h, i) => w.(store := ForceValidation(c, s, h, i).0)
    case Monitor(now) => w.(store := Monitored(c, s, now))
    case Purge(now) => w.(store := Purged(s, now))
    case Drop(h, i) => w.(store := if Has(s, h, i) then s[h := s[h] - {i}] else s)
    case Clear(h) => w.(store := s - {h})
    case ClearAll => w.(store := map[])
    case Configure(config) => w.(config := config)
  }

  function Run(c: Config, events: seq<Event>): World {
    if events == [] then World(c, map[]) else Step(Run(c, events[..|events| - 1]), events[|events| - 1])
  }

  /** The counts add up and the score is their ratio, or its initial value. */
  ghost predicate GoodPiece(p: Piece) {
    && p.successes + p.failures == p.attempts
    && if p.attempts == 0 then p.quality == 0.0 || p.quality == 1.0
       else p.quality == p.successes as real / p.attempts as real
  }

  predicate Small(p: Piece, size: nat) {
    |p.data| <= size
  }

  /** Every piece is good, and no larger than `size`. */
  ghost predicate Good(s: Store, size: nat) {
    forall h, i :: Has(s, h, i) ==> GoodPiece(s[h][i]) && Small(s[h][i], size)
  }

  lemma RatioInRange(a: nat, n: nat)
    requires a <= n && 0 < n
    ensures 0.0 <= a as real / n as real <= 1.0
  {
  }

  lemma GoodScore(p: Piece)
    requires GoodPiece(p)
    ensures 0.0 <= p.quality <= 1.0
  {
    if p.attempts > 0 { RatioInRange(p.successes, p.attempts); }
  }

  lemma PutKeepsGood(s: Store, size: nat, hash: string, index: int, p: Piece)
    requires Good(s, size) && GoodPiece(p) && Small(p, size)
    ensures Good(Put(s, hash, index, p), size)
  {
    var s' := Put(s, hash, index, p);
    forall h, i | Has(s', h, i) ensures GoodPiece(s'[h][i]) && Small(s'[h][i], size) {
      if h != hash || i != index { assert Has(s, h, i); }
    }
  }

  lemma MissedKeepsGood(s: Store, size: nat, hash: string)
    requires Good(s, size)
    ensures Good(Missed(s, hash), size)
  {
    var s' := Missed(s, hash);
    forall h, i | Has(s', h, i) ensures GoodPiece(s'[h][i]) && Small(s'[h][i], size) {
      assert Has(s, h, i);
    }
  }

  lemma CallKeepsGood(w: World, e: Event, size: nat)
    requires Good(w.store, size) && w.config.maxPieceSize <= size
    requires e.Add? || e.Request? || e.Receive? || e.MarkAs? || e.Force?
    ensures Good(Step(w, e).store, size)
  {
    var s, s' := w.store, Step(w, e).store;
    if Has(s, e.hash, e.index) {
      var p := s[e.hash][e.index];
      assert GoodPiece(p) && Small(p, size);
    }
    if s' != s && Has(s', e.hash, e.index) {
      ChangedPieceIsGood(w, e, size);
      PutKeepsGood(s, size, e.hash, e.index, s'[e.hash][e.index]);
    } else if s' != s {
      MissedKeepsGood(s, size, e.hash);
    }
  }

  lemma ChangedPieceIsGood(w: World, e: Event, size: nat)
    requires Good(w.store, size) && w.config.maxPieceSize <= size
    requires e.Add? || e.Request? || e.Receive? || e.MarkAs? || e.Force?
    requires Step(w, e).store != w.store && Has(Step(w, e).store, e.hash, e.index)
    ensures var p := Step(w, e).store[e.hash][e.index]; GoodPiece(p) && Small(p, size)
  {
    if Has(w.store, e.hash, e.index) {
      assert GoodPiece(w.store[e.hash][e.index]) && Small(w.store[e.hash][e.index], size);
    }
  }

  lemma SweepKeepsGood(w: World, e: Event, size: nat)
    requires Good(w.store, size)
    requires !e.Add? && !e.Request? && !e.Receive? && !e.MarkAs? && !e.Force?
    ensures Good(Step(w, e).store, size)
  {
    var s, s' := w.store, Step(w, e).store;
    forall h, i | Has(s', h, i) ensures GoodPiece(s'[h][i]) && Small(s'[h][i], size) {
      assert Has(s, h, i) && GoodPiece(s[h][i]) && Small(s[h][i], size);
    }
  }

  /** The piece size in force never exceeds `size`. */
  ghost predicate SizesWithin(c: Config, events: seq<Event>, size: nat) {
    && c.maxPieceSize <= size
    && forall e :: e in events && e.Configure? ==> e.config.maxPieceSize <= size
  }

  lemma {:induction false} ReachableGood(c: Config, events: seq<Event>, size: nat)
    requires SizesWithin(c, events, size)
    ensures Good(Run(c, events).store, size) && Run(c, events).config.maxPieceSize <= size
  {
    if events != [] {
      var n := |events| - 1;
      assert events[n] in events;
      ReachableGood(c, events[..n], size);
      var w, e := Run(c, events[..n]), events[n];
      if e.Add? || e.Request? || e.Receive? || e.MarkAs? || e.Force? {
        CallKeepsGood(w, e, size);
      } else {
        SweepKeepsGood(w, e, size);
      }
    }
  }

  lemma {:induction false} SomeSizeBound(c: Config, events: seq<Event>) returns (size: nat)
    ensures SizesWithin(c, events, size)
  {
    if events == [] {
      size := c.maxPieceSize;
    } else {
      var n := |events| - 1;
      size := SomeSizeBound(c, events[..n]);
      if events[n].Configure? {
        size := size + events[n].config.maxPieceSize;
      }
      assert events == events[..n] + [events[n]];
    }
  }

  /** In every run, however the configuration changes: the integrity check succeeds exactly when every
      stored piece fits the size now in force; forced validation accepts exactly the pieces that fit; and
      repair clears the store exactly when some piece does not. */
  lemma IntegrityExactly(c: Config, events: seq<Event>)
    ensures
      var World(c', s) := Run(c, events);
      var fits := forall h, i :: Has(s, h, i) ==> Small(s[h][i], c'.maxPieceSize);
      && (Intact(c', s) <==> fits)
      && (forall h, i :: Has(s, h, i) && s[h][i].data != [] ==>
            (ForceValidation(c', s, h, i).1 <==> Small(s[h][i], c'.maxPieceSize)))
      && (0 < c'.maxPieceSize ==> forall total, now ::
            var r := Repaired(c', s, total, now);
            if fits then r == Some(s) || r == Some(Purged(s, now)) else r == Some(map[]))
  {
    var size := SomeSizeBound(c, events);
    ReachableGood(c, events, size);
    var World(c', s) := Run(c, events);
    IntactMeansFits(c', s, size);
    assert forall now :: Purged(map[], now) == map[];
  }

  lemma IntactMeansFits(c: Config, s: Store, size: nat)
    requires Good(s, size)
    ensures Intact(c, s) <==> forall h, i :: Has(s, h, i) ==> Small(s[h][i], c.maxPieceSize)
  {
    forall h, i | Has(s, h, i) ensures 0.0 <= s[h][i].quality <= 1.0 {
      GoodScore(s[h][i]);
    }
  }

  /** Each new piece size is at least the one before. */
  ghost predicate NeverShrinks(c: Config, events: seq<Event>) {
    events == [] ||
      var n := |events| - 1;
      && NeverShrinks(c, events[..n])
      && (events[n].Configure? ==> Run(c, events[..n]).config.maxPieceSize <= events[n].config.maxPieceSize)
  }

  lemma {:induction false} SizesUpTo(c: Config, events: seq<Event>)
    requires NeverShrinks(c, events)
    ensures SizesWithin(c, events, Run(c, events).config.maxPieceSize)
  {
    if events != [] {
      var n := |events| - 1;
      SizesUpTo(c, events[..n]);
      assert events == events[..n] + [events[n]];
    }
  }

  /** With a fixed configuration, or one whose piece size only grows, the integrity check succeeds in every
      reachable state, so repair never clears the store and forced validation never turns a piece invalid. */
  lemma IntegrityAlwaysHolds(c: Config, events: seq<Event>)
    requires NeverShrinks(c, events)
    ensures
      var World(c', s) := Run(c, events);
      && Intact(c', s)
      && (forall total, now :: Repaired(c', s, total, now) in {None, Some(s), Some(Purged(s, now))})
      && forall h, i :: Has(s, h, i) && s[h][i].data != [] ==> ForceValidation(c', s, h, i).1
  {
    SizesUpTo(c, events);
    var World(c', s) := Run(c, events);
    ReachableGood(c, events, c'.maxPieceSize);
    IntactMeansFits(c', s, c'.maxPieceSize);
    assert forall h, i :: Has(s, h, i) ==> Small(s[h][i], c'.maxPieceSize);
  }
}
