/** The two handshake messages and the first look a gateway takes at a datagram. */
module HelloWire {
  import opened Basics
  import opened BigEndian
  import Data = DataWire

  datatype HelloError = ShortHandshake | HandshakeMagic | HandshakeVersion | HandshakeType | HandshakeField

  datatype ClientHello = ClientHello(id: SessionId, timestamp: I64, ephemeral: Bytes, token: Bytes)

  datatype ServerHello = ServerHello(id: SessionId, ephemeral: Bytes, sig: Bytes, ipv4: Bytes)

  const HANDSHAKE_MAGIC: Bytes := [0x43, 0x56, 0x48, 0x31]  // "CVH1"
  const HANDSHAKE_VERSION: Byte := 1
  const CLIENT_HELLO: Byte := 1
  const SERVER_HELLO: Byte := 2
  const EPHEMERAL_SIZE: nat := 32
  const SIGNATURE_SIZE: nat := 64
  const MAX_TOKEN: nat := 4096
  const CLIENT_FIXED: nat := 64
  const SERVER_LEN: nat := 122

  function HandshakeHeader(kind: Byte, id: SessionId): (b: Bytes)
    ensures |b| == 22
  {
    HANDSHAKE_MAGIC + [HANDSHAKE_VERSION, kind] + id
  }

  function ParseHandshakeHeader(b: Bytes, kind: Byte): Result<SessionId, HelloError> {
    if |b| < 22 then Err(ShortHandshake)
    else if b[0..4] != HANDSHAKE_MAGIC then Err(HandshakeMagic)
    else if b[4] != HANDSHAKE_VERSION then Err(HandshakeVersion)
    else if b[5] != kind then Err(HandshakeType)
    else Ok(b[6..22])
  }

  lemma HeaderExactly(b: Bytes, kind: Byte, id: SessionId)
    ensures ParseHandshakeHeader(b, kind) == Ok(id) <==> |b| >= 22 && b[..22] == HandshakeHeader(kind, id)
  {
    if |b| >= 22 {
      assert b[..22] == b[0..4] + [b[4], b[5]] + b[6..22];
      var h := HandshakeHeader(kind, id);
      assert h[0..4] == HANDSHAKE_MAGIC && h[6..22] == id && h[4] == HANDSHAKE_VERSION && h[5] == kind;
      if b[..22] == h {
        assert b[0..4] == h[0..4] && b[6..22] == h[6..22] && b[4] == h[4] && b[5] == h[5];
      }
    }
  }

  /** What stands where: "CVH1", the version, the kind, the session id. */
  lemma HandshakeHeaderLayout(kind: Byte, id: SessionId)
    ensures var b := HandshakeHeader(kind, id);
            && |b| == 22 && b[0] == 0x43 && b[1] == 0x56 && b[2] == 0x48 && b[3] == 0x31 && b[4] == 1 && b[5] == kind
            && b[6..22] == id
  {
  }

  /** A header is refused for the first of these: fewer than 22 bytes, not "CVH1", not version 1, another
      kind. */
  lemma HeaderRefuses(b: Bytes, kind: Byte)
    ensures ParseHandshakeHeader(b, kind) == Err(ShortHandshake) <==> |b| < 22
    ensures ParseHandshakeHeader(b, kind) == Err(HandshakeMagic) <==> |b| >= 22 && b[..4] != [0x43, 0x56, 0x48, 0x31]
    ensures ParseHandshakeHeader(b, kind) == Err(HandshakeVersion) <==>
            |b| >= 22 && b[..4] == [0x43, 0x56, 0x48, 0x31] && b[4] != 1
    ensures ParseHandshakeHeader(b, kind) == Err(HandshakeType) <==>
            |b| >= 22 && b[..5] == [0x43, 0x56, 0x48, 0x31, 1] && b[5] != kind
    ensures ParseHandshakeHeader(b, kind) != Err(HandshakeField)
  {
    if |b| >= 22 {
      assert b[..4] == b[0..4] && b[..5] == b[..4] + [b[4]];
      assert [0x43, 0x56, 0x48, 0x31, 1][..4] == [0x43, 0x56, 0x48, 0x31];
    }
  }

  method PutHandshakeHeader(out: array<Byte>, kind: Byte, id: SessionId)
    requires out.Length >= 22
    modifies out
    ensures out[..22] == HandshakeHeader(kind, id)
    ensures forall k | 22 <= k < out.Length :: out[k] == old(out[k])
  {
    CopyInto(out, 0, HANDSHAKE_MAGIC);
    out[4] := HANDSHAKE_VERSION;
    out[5] := kind;
    CopyInto(out, 6, id);
  }

  // ---- ClientHello -----------------------------------------------------------------------------

  predicate ClientFits(m: ClientHello) {
    |m.ephemeral| == EPHEMERAL_SIZE && |m.token| <= MAX_TOKEN
  }

  function ClientHelloBytes(m: ClientHello): (b: Bytes)
    requires ClientFits(m)
    ensures |b| == CLIENT_FIXED + |m.token|
  {
    HandshakeHeader(CLIENT_HELLO, m.id) + PutU64(ToUnsigned(m.timestamp)) + m.ephemeral
    + PutU16(|m.token|) + m.token
  }

  /** What stands where: kind 1, the timestamp, the ephemeral key, the token's length, the token. */
  lemma ClientHelloLayout(m: ClientHello)
    requires ClientFits(m)
    ensures var b := ClientHelloBytes(m);
            && |b| == 64 + |m.token| && b[..6] == [0x43, 0x56, 0x48, 0x31, 1, 1] && b[6..22] == m.id
            && GetU64(b[22..30]) == ToUnsigned(m.timestamp) && b[30..62] == m.ephemeral
            && GetU16(b[62..64]) == |m.token| && b[64..] == m.token
  {
    var b, h := ClientHelloBytes(m), HandshakeHeader(1, m.id);
    HandshakeHeaderLayout(1, m.id);
    hide PutU64, PutU16, HandshakeHeader;
    assert b[..6] == h[..6] && b[6..22] == h[6..22];
    assert b[22..30] == PutU64(ToUnsigned(m.timestamp)) && b[62..64] == PutU16(|m.token|);
    U64RoundTrip(ToUnsigned(m.timestamp));
    U16RoundTrip(|m.token|);
  }

  method EncodeClientHello(m: ClientHello) returns (r: Result<Bytes, HelloError>)
    ensures r == if ClientFits(m) then Ok(ClientHelloBytes(m)) else Err(HandshakeField)
  {
    if |m.ephemeral| != EPHEMERAL_SIZE || |m.token| > MAX_TOKEN {
      return Err(HandshakeField);
    }
    var out := new Byte[CLIENT_FIXED + |m.token|](_ => 0);
    PutHandshakeHeader(out, CLIENT_HELLO, m.id);
    CopyInto(out, 22, PutU64(ToUnsigned(m.timestamp)));
    CopyInto(out, 30, m.ephemeral);
    CopyInto(out, 62, PutU16(|m.token|));
    CopyInto(out, 64, m.token);
    assert out[..22] == HandshakeHeader(CLIENT_HELLO, m.id);
    assert out[22..30] == PutU64(ToUnsigned(m.timestamp)) && out[30..62] == m.ephemeral;
    assert out[62..64] == PutU16(|m.token|) && out[64..] == m.token;
    assert out[..] == out[..22] + out[22..30] + out[30..62] + out[62..64] + out[64..];
    return Ok(out[..]);
  }

  function DecodeClientHello(b: Bytes): Result<ClientHello, HelloError> {
    match ParseHandshakeHeader(b, CLIENT_HELLO)
    case Err(e) => Err(e)
    case Ok(id) =>
      if |b| < CLIENT_FIXED then Err(ShortHandshake)
      else
        var tokenLen := GetU16(b[62..64]);
        if |b| != CLIENT_FIXED + tokenLen || tokenLen > MAX_TOKEN then Err(HandshakeField)
        else Ok(ClientHello(id, ToSigned(GetU64(b[22..30])), b[30..62], b[64..]))
  }

  /** A hello is refused for its header, for being shorter than its fixed part, or for a token length that
      is not that of the rest or is above 4096. */
  lemma ClientHelloRefuses(b: Bytes)
    ensures ParseHandshakeHeader(b, 1).Err? ==> DecodeClientHello(b) == Err(ParseHandshakeHeader(b, 1).error)
    ensures ParseHandshakeHeader(b, 1).Ok? && |b| < 64 ==> DecodeClientHello(b) == Err(ShortHandshake)
    ensures ParseHandshakeHeader(b, 1).Ok? && |b| >= 64 && (GetU16(b[62..64]) != |b| - 64 || |b| - 64 > 4096) ==>
              DecodeClientHello(b) == Err(HandshakeField)
    ensures ParseHandshakeHeader(b, 1).Ok? && |b| >= 64 && GetU16(b[62..64]) == |b| - 64 <= 4096 ==> DecodeClientHello(b).Ok?
  {
    hide ParseHandshakeHeader, GetU16, GetU64;
  }

  lemma SignRoundTrip(t: I64, n: U64)
    ensures ToSigned(ToUnsigned(t)) == t && ToUnsigned(ToSigned(n)) == n
  {
  }

  /** What is encoded decodes to itself: any session id, timestamp, key and token. */
  lemma ClientHelloDecodes(m: ClientHello)
    requires ClientFits(m)
    ensures DecodeClientHello(ClientHelloBytes(m)) == Ok(m)
  {
    var b := ClientHelloBytes(m);
    assert b[..22] == HandshakeHeader(CLIENT_HELLO, m.id);
    HeaderExactly(b, CLIENT_HELLO, m.id);
    assert b[22..30] == PutU64(ToUnsigned(m.timestamp));
    assert b[30..62] == m.ephemeral;
    assert b[62..64] == PutU16(|m.token|);
    assert b[64..] == m.token;
    U64RoundTrip(ToUnsigned(m.timestamp));
    U16RoundTrip(|m.token|);
    SignRoundTrip(m.timestamp, 0);
  }

  /** Whatever decodes is exactly the encoding of what it decodes to. */
  lemma ClientHelloEncodes(b: Bytes, m: ClientHello)
    requires DecodeClientHello(b) == Ok(m)
    ensures ClientFits(m) && ClientHelloBytes(m) == b
  {
    HeaderExactly(b, CLIENT_HELLO, m.id);
    U64Bytes(b[22..30]);
    U16Bytes(b[62..64]);
    SignRoundTrip(0, GetU64(b[22..30]));
    assert b == b[..22] + b[22..30] + b[30..62] + b[62..64] + b[64..];
  }

  // ---- ServerHello -----------------------------------------------------------------------------

  predicate ServerFits(m: ServerHello) {
    |m.ephemeral| == EPHEMERAL_SIZE && |m.sig| == SIGNATURE_SIZE && |m.ipv4| == 4
  }

  function ServerHelloBytes(m: ServerHello): (b: Bytes)
    requires ServerFits(m)
    ensures |b| == SERVER_LEN
  {
    HandshakeHeader(SERVER_HELLO, m.id) + m.ephemeral + m.sig + m.ipv4
  }

  /** What stands where: kind 2, the ephemeral key, the signature, the assigned address. */
  lemma ServerHelloLayout(m: ServerHello)
    requires ServerFits(m)
    ensures var b := ServerHelloBytes(m);
            && |b| == 122 && b[..6] == [0x43, 0x56, 0x48, 0x31, 1, 2] && b[6..22] == m.id
            && b[22..54] == m.ephemeral && b[54..118] == m.sig && b[118..122] == m.ipv4
  {
    var b, h := ServerHelloBytes(m), HandshakeHeader(2, m.id);
    HandshakeHeaderLayout(2, m.id);
    hide HandshakeHeader;
    assert b[..6] == h[..6] && b[6..22] == h[6..22];
  }

  method EncodeServerHello(m: ServerHello) returns (r: Result<Bytes, HelloError>)
    requires |m.ipv4| == 4
    ensures r == if ServerFits(m) then Ok(ServerHelloBytes(m)) else Err(HandshakeField)
  {
    if |m.ephemeral| != EPHEMERAL_SIZE || |m.sig| != SIGNATURE_SIZE {
      return Err(HandshakeField);
    }
    var out := new Byte[SERVER_LEN](_ => 0);
    PutHandshakeHeader(out, SERVER_HELLO, m.id);
    CopyInto(out, 22, m.ephemeral);
    CopyInto(out, 54, m.sig);
    CopyInto(out, 118, m.ipv4);
    assert out[..22] == HandshakeHeader(SERVER_HELLO, m.id);
    assert out[22..54] == m.ephemeral && out[54..118] == m.sig && out[118..] == m.ipv4;
    assert out[..] == out[..22] + out[22..54] + out[54..118] + out[118..];
    return Ok(out[..]);
  }

  function DecodeServerHello(b: Bytes): Result<ServerHello, HelloError> {
    match ParseHandshakeHeader(b, SERVER_HELLO)
    case Err(e) => Err(e)
    case Ok(id) =>
      if |b| != SERVER_LEN then Err(HandshakeField)
      else Ok(ServerHello(id, b[22..54], b[54..118], b[118..]))
  }

  /** An answer is refused for its header or for not being 122 bytes long. */
  lemma ServerHelloRefuses(b: Bytes)
    ensures ParseHandshakeHeader(b, 2).Err? ==> DecodeServerHello(b) == Err(ParseHandshakeHeader(b, 2).error)
    ensures ParseHandshakeHeader(b, 2).Ok? && |b| != 122 ==> DecodeServerHello(b) == Err(HandshakeField)
    ensures ParseHandshakeHeader(b, 2).Ok? && |b| == 122 ==> DecodeServerHello(b).Ok?
  {
    hide ParseHandshakeHeader;
  }

  lemma ServerHelloDecodes(m: ServerHello)
    requires ServerFits(m)
    ensures DecodeServerHello(ServerHelloBytes(m)) == Ok(m)
  {
    var b := ServerHelloBytes(m);
    assert b[..22] == HandshakeHeader(SERVER_HELLO, m.id);
    HeaderExactly(b, SERVER_HELLO, m.id);
    assert b[22..54] == m.ephemeral && b[54..118] == m.sig && b[118..] == m.ipv4;
  }

  lemma ServerHelloEncodes(b: Bytes, m: ServerHello)
    requires DecodeServerHello(b) == Ok(m)
    ensures ServerFits(m) && ServerHelloBytes(m) == b
  {
    HeaderExactly(b, SERVER_HELLO, m.id);
    assert b == b[..22] + b[22..54] + b[54..118] + b[118..];
  }

  // ---- Ping ------------------------------------------------------------------------------------

  const PING_MAGIC: Bytes := [0x43, 0x56, 0x50, 0x50]  // "CVPP"
  const PING_SIZE: nat := 13

  datatype Ping = Ping(isPong: bool, nonce: U64)

  function PingBytes(p: Ping): (b: Bytes)
    ensures |b| == PING_SIZE
  {
    PING_MAGIC + [if p.isPong then 2 else 1] + PutU64(p.nonce)
  }

  function DecodePing(b: Bytes): Option<Ping> {
    if |b| != PING_SIZE || b[0..4] != PING_MAGIC then None
    else if b[4] == 1 then Some(Ping(false, GetU64(b[5..])))
    else if b[4] == 2 then Some(Ping(true, GetU64(b[5..])))
    else None
  }

  /** What stands where: "CVPP", 1 for a ping and 2 for a pong, the nonce. */
  lemma PingLayout(p: Ping)
    ensures var b := PingBytes(p);
            && |b| == 13 && b[..4] == [0x43, 0x56, 0x50, 0x50] && b[4] == (if p.isPong then 2 else 1)
            && GetU64(b[5..13]) == p.nonce
  {
    var b := PingBytes(p);
    assert b[5..13] == PutU64(p.nonce);
    U64RoundTrip(p.nonce);
  }

  lemma PingExactly(b: Bytes, p: Ping)
    ensures DecodePing(b) == Some(p) <==> b == PingBytes(p)
  {
    var e := PingBytes(p);
    assert e[0..4] == PING_MAGIC && e[5..] == PutU64(p.nonce);
    U64RoundTrip(p.nonce);
    if DecodePing(b) == Some(p) {
      U64Bytes(b[5..]);
      assert b == b[0..4] + [b[4]] + b[5..];
    }
  }

  // ---- Classification --------------------------------------------------------------------------

  datatype Kind = UnknownKind | DataKind | ClientHelloKind | ServerHelloKind | PingKind

  function Classify(b: Bytes): Kind {
    if |b| < 4 then UnknownKind
    else if b[0..4] == Data.DATA_MAGIC then DataKind
    else if b[0..4] == PING_MAGIC then PingKind
    else if b[0..4] == HANDSHAKE_MAGIC then
      if |b| < 6 then UnknownKind
      else if b[5] == CLIENT_HELLO then ClientHelloKind
      else if b[5] == SERVER_HELLO then ServerHelloKind
      else UnknownKind
    else UnknownKind
  }

  /** The kinds, by the bytes that decide them. */
  lemma ClassifiesExactly(b: Bytes)
    ensures Classify(b) == DataKind <==> |b| >= 4 && b[..4] == [0x43, 0x56, 0x44, 0x31]
    ensures Classify(b) == PingKind <==> |b| >= 4 && b[..4] == [0x43, 0x56, 0x50, 0x50]
    ensures Classify(b) == ClientHelloKind <==> |b| >= 6 && b[..4] == [0x43, 0x56, 0x48, 0x31] && b[5] == 1
    ensures Classify(b) == ServerHelloKind <==> |b| >= 6 && b[..4] == [0x43, 0x56, 0x48, 0x31] && b[5] == 2
  {
    MagicsDiffer();
    if |b| >= 4 {
      assert b[..4] == b[0..4];
    }
  }

  lemma MagicsDiffer()
    ensures Data.DATA_MAGIC != PING_MAGIC && Data.DATA_MAGIC != HANDSHAKE_MAGIC && PING_MAGIC != HANDSHAKE_MAGIC
  {
    assert Data.DATA_MAGIC[2] == 0x44 && PING_MAGIC[2] == 0x50 && HANDSHAKE_MAGIC[2] == 0x48;
  }

  /** Every frame one of the decoders accepts is sent to that decoder and to no other. */
  lemma ClassifiedByDecoder(b: Bytes)
    ensures Data.ParseHeader(b).Ok? ==> Classify(b) == DataKind
    ensures DecodeClientHello(b).Ok? ==> Classify(b) == ClientHelloKind
    ensures DecodeServerHello(b).Ok? ==> Classify(b) == ServerHelloKind
    ensures DecodePing(b).Some? ==> Classify(b) == PingKind
  {
    MagicsDiffer();
  }

  /** Every frame the encoders build is classified as its own kind. */
  lemma EncodedIsClassified(h: Data.Header, rest: Bytes, c: ClientHello, s: ServerHello, p: Ping)
    requires ClientFits(c) && ServerFits(s)
    ensures Classify(Data.HeaderBytes(h) + rest) == DataKind
    ensures Classify(ClientHelloBytes(c)) == ClientHelloKind
    ensures Classify(ServerHelloBytes(s)) == ServerHelloKind
    ensures Classify(PingBytes(p)) == PingKind
  {
    assert (Data.HeaderBytes(h) + rest)[0..4] == Data.DATA_MAGIC;
    ClientHelloDecodes(c);
    ClassifiedByDecoder(ClientHelloBytes(c));
    ServerHelloDecodes(s);
    ClassifiedByDecoder(ServerHelloBytes(s));
    PingExactly(PingBytes(p), p);
    ClassifiedByDecoder(PingBytes(p));
  }
}
