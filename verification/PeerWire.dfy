/** Peer-message framing (`parseMessage`, the byte building of `sendMessage`, `sendExtensionMessage`):
    a four-byte big-endian length, then a type byte and the payload (BEP 3, "peer messages"). */
module PeerWire {
  import opened Wrappers
  import opened Machine
  import opened Digits

  type Bytes = seq<Byte>

  datatype Message = Message(kind: nat, length: nat, payload: Bytes)

  /** `Undefined`: the declared length is so close to 2^32 that the bounds check, done in 32 bits, lets a
      read past the end of the data through. */
  datatype Parsed = Frame(message: Message) | Invalid | Undefined

  const KEEP_ALIVE: nat := 1
  const EXTENDED: nat := 12
  const UINT32: nat := 0x1_0000_0000

  function Be32(n: nat): (b: Bytes)
    ensures |b| == 4
  {
    [n / 0x100_0000 % 256, n / 0x1_0000 % 256, n / 0x100 % 256, n % 256]
  }

  function Read32(b: Bytes): (n: nat)
    requires |b| >= 4
    ensures n < UINT32
  {
    Join(b[0], b[1], b[2], b[3])
  }

  function Join(a: int, b: int, c: int, d: int): int {
    a * 0x100_0000 + b * 0x1_0000 + c * 0x100 + d
  }

  function Serialize(m: Message): Bytes {
    WithHeader(Be32(m.length), m)
  }

  function WithHeader(header: Bytes, m: Message): Bytes {
    header + (if m.length > 0 then [m.kind % 256] else []) + m.payload
  }

  function Parse(data: Bytes): Parsed {
    if |data| < 4 then Invalid else ParseBody(data, Read32(data))
  }

  function ParseBody(data: Bytes, length: nat): Parsed
    requires |data| >= 4
  {
    if length == 0 then Frame(Message(KEEP_ALIVE, 0, []))
    else if |data| < (4 + length) % UINT32 then Invalid
    else if |data| < 4 + length then Undefined
    else Frame(Message(data[4], length, data[5..4 + length]))
  }

  /** The message `sendExtensionMessage` builds: extension id 0 and the payload; the length is stored in
      32 bits. */
  function ExtensionMessage(payload: Bytes): Message {
    Message(EXTENDED, (2 + |payload|) % UINT32, [0] + payload)
  }

  /** Nothing is sent unless the extension has been enabled for that peer. */
  function ExtensionFrame(enabled: map<string, set<string>>, peer: string, name: string, payload: Bytes): Option<Bytes> {
    if peer in enabled && name in enabled[peer] then Some(Serialize(ExtensionMessage(payload))) else None
  }

  // ----- Parsing inverts serializing -----

  ghost predicate WellFormed(m: Message) {
    || m == Message(KEEP_ALIVE, 0, [])
    || (m.length == 1 + |m.payload| && m.length < UINT32 && m.kind < 256)
  }

  lemma HeaderReads(data: Bytes, n: nat)
    requires n < UINT32 && |data| >= 4 && data[..4] == Be32(n)
    ensures Read32(data) == n
  {
    assert data[0] == data[..4][0] && data[1] == data[..4][1] && data[2] == data[..4][2] && data[3] == data[..4][3];
    SplitBytes(n);
  }

  lemma SplitBytes(n: nat)
    requires n < UINT32
    ensures Join(n / 0x100_0000 % 256, n / 0x1_0000 % 256, n / 0x100 % 256, n % 256) == n
  {
    var a := n / 0x100;
    var b := a / 0x100;
    assert n / 0x1_0000 == b && n / 0x100_0000 == b / 0x100;
  }

  lemma LengthReadsBack(data: Bytes)
    requires |data| >= 4
    ensures Be32(Read32(data)) == data[..4]
  {
    JoinBytes(data[0], data[1], data[2], data[3]);
  }

  lemma JoinBytes(a: int, b: int, c: int, d: int)
    requires 0 <= a < 256 && 0 <= b < 256 && 0 <= c < 256 && 0 <= d < 256
    ensures
      var n := Join(a, b, c, d);
      n / 0x100_0000 % 256 == a && n / 0x1_0000 % 256 == b && n / 0x100 % 256 == c && n % 256 == d
  {
    var n := Join(a, b, c, d);
    assert n / 0x100 == a * 0x1_0000 + b * 0x100 + c;
    assert n / 0x1_0000 == a * 0x100 + b;
    assert n / 0x100_0000 == a;
  }

  lemma BodyParses(header: Bytes, m: Message, rest: Bytes)
    requires |header| == 4 && WellFormed(m)
    ensures var data := WithHeader(header, m) + rest; data[..4] == header && ParseBody(data, m.length) == Frame(m)
  {
    var data := WithHeader(header, m) + rest;
    if m.length > 0 {
      assert data == header + [m.kind] + m.payload + rest;
      assert data[5..4 + m.length] == m.payload;
    }
  }

  /** Parsing a serialized message, whatever follows it, gives the message back. */
  lemma SerializedParses(m: Message, rest: Bytes)
    requires WellFormed(m)
    ensures Parse(Serialize(m) + rest) == Frame(m)
  {
    BodyParses(Be32(m.length), m, rest);
    HeaderReads(Serialize(m) + rest, m.length);
  }

  lemma BodyBegins(data: Bytes, length: nat, m: Message)
    requires |data| >= 4 && length < UINT32 && ParseBody(data, length) == Frame(m)
    ensures m.length == length && WellFormed(m) && WithHeader(data[..4], m) <= data
  {
    if length > 0 {
      assert data[..4] + [data[4]] + data[5..4 + length] == data[..4 + length];
    }
  }

  lemma ParsedBegins(data: Bytes, m: Message)
    requires Parse(data) == Frame(m)
    ensures WellFormed(m) && Serialize(m) <= data
  {
    BodyBegins(data, Read32(data), m);
    LengthReadsBack(data);
  }

  /** Data parses to a message exactly when the message is well formed and its serialization is how the
      data begins. */
  lemma ParsesExactly(data: Bytes, m: Message)
    ensures Parse(data) == Frame(m) <==> WellFormed(m) && Serialize(m) <= data
  {
    if Parse(data) == Frame(m) {
      ParsedBegins(data, m);
    } else if WellFormed(m) && Serialize(m) <= data {
      var rest := data[|Serialize(m)|..];
      assert data == Serialize(m) + rest;
      SerializedParses(m, rest);
    }
  }

  /** Data is rejected exactly when it is shorter than its header or than its declared length, as long as
      that length stays clear of the 32-bit wrap-around; past it the outcome is undefined. */
  lemma RejectsTruncatedExactly(data: Bytes)
    ensures Parse(data) == Invalid <==>
      |data| < 4 || (Read32(data) < UINT32 - 4 && |data| < 4 + Read32(data))
    ensures Parse(data) == Undefined <==>
      |data| >= 4 && Read32(data) >= UINT32 - 4 && |data| < 4 + Read32(data)
  {
    if |data| >= 4 && Read32(data) >= UINT32 - 4 {
      assert (4 + Read32(data)) % UINT32 == 4 + Read32(data) - UINT32;
    }
  }

  // ----- The layout of a frame -----

  /** The length is read most significant byte first. */
  lemma HeaderIsBigEndian(data: Bytes)
    requires |data| >= 4
    ensures Read32(data) == Val(256, data[..4])
  {
    var a, b, c, d := data[0], data[1], data[2], data[3];
    ValAppend(256, [], a);
    ValAppend(256, [a], b);
    ValAppend(256, [a, b], c);
    ValAppend(256, [a, b, c], d);
    assert [] + [a] == [a] && [a] + [b] == [a, b] && [a, b] + [c] == [a, b, c] && [a, b, c] + [d] == [a, b, c, d];
    assert data[..4] == [a, b, c, d];
  }

  /** A frame is its length in four bytes, most significant first, then one byte of kind, then the payload;
      a keep-alive is four zero bytes. */
  lemma FrameLayout(m: Message)
    requires WellFormed(m)
    ensures LaidOut(Serialize(m), m)
  {
    HeaderValue(m.length);
    ZeroHeader();
    BodyLayout(Be32(m.length), m);
  }

  ghost predicate LaidOut(f: Bytes, m: Message) {
    && |f| == 4 + m.length && Val(256, f[..4]) == m.length
    && (m.length > 0 ==> f[4] == m.kind && f[5..] == m.payload)
    && (m.length == 0 ==> f == [0, 0, 0, 0] && m.kind == 1)
  }

  lemma HeaderValue(n: nat)
    requires n < UINT32
    ensures Val(256, Be32(n)) == n
  {
    WholeHeader(Be32(n));
    ReadsBack(n);
  }

  lemma WholeHeader(header: Bytes)
    requires |header| == 4
    ensures Val(256, header) == Read32(header)
  {
    assert header[..4] == header;
    HeaderIsBigEndian(header);
  }

  lemma ReadsBack(n: nat)
    requires n < UINT32
    ensures Read32(Be32(n)) == n
  {
    SplitBytes(n);
  }

  lemma ZeroHeader()
    ensures Be32(0) == [0, 0, 0, 0]
  {
  }

  lemma BodyLayout(header: Bytes, m: Message)
    requires |header| == 4 && WellFormed(m) && Val(256, header) == m.length
    requires m.length == 0 ==> header == [0, 0, 0, 0]
    ensures LaidOut(WithHeader(header, m), m)
  {
    assert WithHeader(header, m)[..4] == header;
  }

  // ----- Streams -----

  function Stream(ms: seq<Message>): Bytes {
    if ms == [] then [] else Serialize(ms[0]) + Stream(ms[1..])
  }

  /** Concatenated frames decode in only one way. */
  lemma {:induction false} StreamsDecodeUniquely(ms: seq<Message>, ns: seq<Message>)
    requires (forall m :: m in ms ==> WellFormed(m)) && (forall n :: n in ns ==> WellFormed(n))
    requires Stream(ms) == Stream(ns)
    ensures ms == ns
    decreases |ms|
  {
    if ms != [] && ns != [] {
      SameHead(ms[0], Stream(ms[1..]), ns[0], Stream(ns[1..]));
      StreamsDecodeUniquely(ms[1..], ns[1..]);
      assert ms == [ms[0]] + ms[1..] && ns == [ns[0]] + ns[1..];
    } else if ms != [] {
      StreamNotEmpty(ms);
    } else if ns != [] {
      StreamNotEmpty(ns);
    }
  }

  /** No serialized message is a proper prefix of another. */
  lemma SameHead(m: Message, rest: Bytes, n: Message, rest': Bytes)
    requires WellFormed(m) && WellFormed(n) && Serialize(m) + rest == Serialize(n) + rest'
    ensures m == n && rest == rest'
  {
    SerializedParses(m, rest);
    SerializedParses(n, rest');
    assert (Serialize(m) + rest)[|Serialize(m)|..] == rest;
    assert (Serialize(n) + rest')[|Serialize(n)|..] == rest';
  }

  lemma StreamNotEmpty(ms: seq<Message>)
    requires ms != []
    ensures Stream(ms) != []
  {
    assert |Serialize(ms[0])| >= 4;
  }

  // ----- Extension messages -----

  /** An extension message is well formed exactly when its length fits in 32 bits. */
  lemma ExtensionWellFormedExactly(payload: Bytes)
    ensures WellFormed(ExtensionMessage(payload)) <==> 2 + |payload| < UINT32
  {
    assert (2 + |payload|) % UINT32 < UINT32;
  }

  /** What an enabled extension sends arrives as that extension message (kind 12 of the enumeration, extension
      id 0), whatever follows it. */
  lemma ExtensionArrives(enabled: map<string, set<string>>, peer: string, name: string, payload: Bytes, rest: Bytes)
    requires 2 + |payload| < UINT32
    ensures
      var sent := ExtensionFrame(enabled, peer, name, payload);
      && (sent.Some? <==> peer in enabled && name in enabled[peer])
      && (sent.Some? ==> Parse(sent.value + rest) == Frame(Message(12, 2 + |payload|, [0] + payload)))
  {
    SerializedParses(ExtensionMessage(payload), rest);
  }
}
