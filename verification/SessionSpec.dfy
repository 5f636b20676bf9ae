/** One endpoint of a session as a value, and the atomic actions its locks allow: taking a packet
    number, sealing, authenticating, and asking the replay window. */
module SessionSpec {
  import opened Basics
  import opened BigEndian
  import opened DataWire
  import Replay = ReplaySpec

  // ---- Ideal authenticated encryption ----------------------------------------------------------

  /** What `Seal` produced for one call; opening asks for exactly these four. */
  datatype Box = Box(key: Bytes, nonce: Bytes, aad: Bytes, ct: Bytes)

  /** Every box ever sealed, with its plaintext. Opening succeeds on these and on nothing else. */
  type Vault = map<Box, Bytes>

  /** The bytes of a ciphertext and tag, as an arbitrary function of key, nonce, aad and plaintext. */
  type Cipher = (Bytes, Bytes, Bytes, Bytes) -> Bytes

  function SealBox(enc: Cipher, key: Bytes, nonce: Bytes, aad: Bytes, plain: Bytes): Box {
    Box(key, nonce, aad, enc(key, nonce, aad, plain))
  }

  function Open(vault: Vault, box: Box): Option<Bytes> {
    if box in vault then Some(vault[box]) else None
  }

  // ---- The endpoint ----------------------------------------------------------------------------

  datatype Role = Initiator | Responder

  function Peer(role: Role): Role {
    if role == Initiator then Responder else Initiator
  }

  function SendDir(role: Role): Direction {
    if role == Responder then ToClient else ToGateway
  }

  function PeerDir(role: Role): Direction {
    if role == Responder then ToGateway else ToClient
  }

  datatype SessionError =
    | Malformed(reason: WireError) | WrongDirection | OpenFailed | Oversize
    | ZeroSession | KeySize | Capacity

  datatype Session = Session(id: SessionId, role: Role, key: Bytes, next: U64, window: Replay.Window)

  const KEY_SIZE: nat := 32

  /** Width of the window a session of the given capacity gets: rounded up to whole 64-bit words. */
  function Width(capacity: int): nat
    requires capacity > 0
  {
    (capacity + 63) / 64 * 64
  }

  function New(id: SessionId, key: Bytes, role: Role, capacity: int): Result<Session, SessionError> {
    if IsZero(id) then Err(ZeroSession)
    else if |key| != KEY_SIZE then Err(KeySize)
    else if capacity <= 0 then Err(Capacity)
    else Ok(Session(id, role, key, 0, Replay.Fresh(Width(capacity))))
  }

  /** Takes the next packet number; the counter is an unsigned 64-bit one and wraps. */
  function Assign(s: Session): Session {
    s.(next := (s.next + 1) % TWO_64)
  }

  function PacketHeader(s: Session, n: U64): Header {
    Header(PacketId(s.id, n), SendDir(s.role))
  }

  /** The box in which packet `n` of this endpoint carries `payload`. */
  function PacketBox(enc: Cipher, s: Session, n: U64, payload: Bytes): Box {
    var h := PacketHeader(s, n);
    SealBox(enc, s.key, Nonce(h.dir, n), HeaderBytes(h), payload)
  }

  /** The datagram sent over every path: header, then ciphertext. */
  function PacketWire(enc: Cipher, s: Session, n: U64, payload: Bytes): Bytes {
    HeaderBytes(PacketHeader(s, n)) + PacketBox(enc, s, n, payload).ct
  }

  /** `box` as the wire has it: the header names direction, session and number, and so does the nonce, by
      direction and number. */
  ghost predicate Laid(box: Box, s: Session, n: U64) {
    && box.key == s.key
    && |box.nonce| == 12 && box.nonce[0] == (if s.role == Responder then 1 else 0)
    && box.nonce[1] == 0 && box.nonce[2] == 0 && box.nonce[3] == 0 && GetU64(box.nonce[4..12]) == n
    && |box.aad| == 30 && box.aad[..5] == [0x43, 0x56, 0x44, 0x31, 1] && box.aad[5] == box.nonce[0]
    && box.aad[6..22] == s.id && GetU64(box.aad[22..30]) == n
  }

  /** The box of every packet is laid out so, its ciphertext is that of the payload under all of it, and
      the datagram is header and ciphertext. */
  lemma BoxLayout(enc: Cipher, s: Session, n: U64, payload: Bytes)
    ensures var box := PacketBox(enc, s, n, payload);
            && Laid(box, s, n) && box.ct == enc(box.key, box.nonce, box.aad, payload)
            && PacketWire(enc, s, n, payload) == box.aad + box.ct
  {
    HeaderLayout(PacketHeader(s, n));
    NonceLayout(SendDir(s.role), n);
    hide Nonce, HeaderBytes;
  }

  /** The window is the capacity rounded up to whole 64-bit words. */
  lemma WidthRounds(capacity: int)
    requires capacity > 0
    ensures capacity <= Width(capacity) < capacity + 64 && Width(capacity) % 64 == 0
  {
  }

  /** A session is built, at number zero with an empty window, exactly from a non-zero id, a key of 32
      bytes and a positive capacity; else the first of these that fails is the reason. */
  lemma NewExactly(id: SessionId, key: Bytes, role: Role, capacity: int)
    ensures var r := New(id, key, role, capacity);
            && (r.Ok? <==> !IsZero(id) && |key| == 32 && capacity > 0)
            && (r == Err(ZeroSession) <==> IsZero(id))
            && (r == Err(KeySize) <==> !IsZero(id) && |key| != 32)
            && (r == Err(Capacity) <==> !IsZero(id) && |key| == 32 && capacity <= 0)
    ensures var r := New(id, key, role, capacity);
            r.Ok? ==>
              && r.value.id == id && r.value.role == role && r.value.key == key && r.value.next == 0
              && r.value.window.last == 0 && r.value.window.accepted == {} && capacity <= r.value.window.width < capacity + 64
  {
    if capacity > 0 {
      WidthRounds(capacity);
    }
  }

  datatype Plain = Plain(number: U64, payload: Bytes)

  /** Header checks and decryption; the replay window is not consulted. */
  function Authenticate(vault: Vault, s: Session, wire: Bytes): Result<Plain, SessionError> {
    match ParseHeader(wire)
    case Err(e) => Err(Malformed(e))
    case Ok(h) =>
      if h.dir != PeerDir(s.role) then Err(WrongDirection)
      else
        var box := Box(s.key, Nonce(h.dir, h.id.number), wire[..DATA_HEADER_SIZE], wire[DATA_HEADER_SIZE..]);
        match Open(vault, box)
        case None => Err(OpenFailed)
        case Some(payload) => Ok(Plain(h.id.number, payload))
  }

  /** A datagram is refused for the first of these: its header does not parse, it goes the same way as the
      session's own packets, or no box with the session's key, that header and the rest was sealed. */
  lemma AuthenticateRefuses(vault: Vault, s: Session, wire: Bytes, e: WireError)
    ensures Authenticate(vault, s, wire) == Err(Malformed(e)) <==> ParseHeader(wire) == Err(e)
    ensures Authenticate(vault, s, wire) == Err(WrongDirection) <==>
            ParseHeader(wire).Ok? && ParseHeader(wire).value.dir == SendDir(s.role)
    ensures Authenticate(vault, s, wire) == Err(OpenFailed) <==>
            && ParseHeader(wire).Ok? && ParseHeader(wire).value.dir != SendDir(s.role)
            && var h := ParseHeader(wire).value;
               Box(s.key, Nonce(h.dir, h.id.number), wire[..30], wire[30..]) !in vault
    ensures Authenticate(vault, s, wire).Err? ==>
            var e := Authenticate(vault, s, wire).error; e.Malformed? || e == WrongDirection || e == OpenFailed
  {
    hide ParseHeader, Nonce;
    ParsedIsLong(wire);
  }

  lemma ParsedIsLong(wire: Bytes)
    ensures ParseHeader(wire).Ok? ==> |wire| >= 30
  {
  }

  function Observe(s: Session, n: U64): Session {
    s.(window := Replay.Observe(s.window, n))
  }

  /** The datagram of a sealed packet authenticates at the peer to exactly the sealed payload. */
  lemma WireAuthenticates(enc: Cipher, vault: Vault, sender: Session, receiver: Session, n: U64, payload: Bytes)
    requires sender.key == receiver.key && sender.role == Peer(receiver.role)
    requires !IsZero(sender.id) && n > 0
    requires var box := PacketBox(enc, sender, n, payload); box in vault && vault[box] == payload
    ensures Authenticate(vault, receiver, PacketWire(enc, sender, n, payload)) == Ok(Plain(n, payload))
  {
    var h := PacketHeader(sender, n);
    var ct := PacketBox(enc, sender, n, payload).ct;
    var wire := PacketWire(enc, sender, n, payload);
    ParseFramed(h, ct);
    assert wire[..DATA_HEADER_SIZE] == HeaderBytes(h);
    assert wire[DATA_HEADER_SIZE..] == ct;
  }

  /** A datagram that authenticates is, byte for byte, the header and ciphertext of a sealed box. */
  lemma AuthenticatedIsBoxed(vault: Vault, s: Session, wire: Bytes, p: Plain)
    requires Authenticate(vault, s, wire) == Ok(p)
    ensures p.number > 0
    ensures |wire| >= DATA_HEADER_SIZE
    ensures var box := Box(s.key, Nonce(PeerDir(s.role), p.number), wire[..DATA_HEADER_SIZE], wire[DATA_HEADER_SIZE..]);
            box in vault && vault[box] == p.payload
  {
    var h := ParseHeader(wire).value;
    ParsedIsFramed(wire, h);
  }
}
