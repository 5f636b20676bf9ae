/** The data-plane header and nonce: what is written, what is read back, and what tampering the
    parser lets through to the cipher. */
module DataWire {
  import opened Basics
  import opened BigEndian

  datatype Direction = ToGateway | ToClient

  datatype WireError = ShortData | BadMagic | BadVersion | BadIdentity

  datatype Header = Header(id: PacketId, dir: Direction)

  const DATA_MAGIC: Bytes := [0x43, 0x56, 0x44, 0x31]  // "CVD1"
  const DATA_VERSION: Byte := 1
  const DATA_HEADER_SIZE: nat := 30
  const MAX_PAYLOAD: nat := 1600

  function DirByte(dir: Direction): Byte {
    if dir == ToClient then 1 else 0
  }

  /** The 30 header bytes of a packet, which are also the authenticated associated data. */
  function HeaderBytes(h: Header): (b: Bytes)
    ensures |b| == DATA_HEADER_SIZE
  {
    DATA_MAGIC + [DATA_VERSION, DirByte(h.dir)] + h.id.session + PutU64(h.id.number)
  }

  /** What stands where in it: "CVD1", the version, the direction, the session id, the number. */
  lemma HeaderLayout(h: Header)
    ensures var b := HeaderBytes(h);
            && |b| == 30 && b[0] == 0x43 && b[1] == 0x56 && b[2] == 0x44 && b[3] == 0x31 && b[4] == 1
            && b[5] == (if h.dir == ToClient then 1 else 0)
            && b[6..22] == h.id.session && GetU64(b[22..30]) == h.id.number
  {
    var b := HeaderBytes(h);
    assert b[22..30] == PutU64(h.id.number);
    U64RoundTrip(h.id.number);
  }

  /** Fills a fresh buffer field by field. */
  method FrameHeader(h: Header) returns (b: Bytes)
    ensures b == HeaderBytes(h)
  {
    var out := new Byte[DATA_HEADER_SIZE](_ => 0);
    CopyInto(out, 0, DATA_MAGIC);
    out[4] := DATA_VERSION;
    if h.dir == ToClient {
      out[5] := 1;
    }
    CopyInto(out, 6, h.id.session);
    CopyInto(out, 22, PutU64(h.id.number));
    b := out[..];
  }

  /** Reads a datagram's header. Only bit 0 of the flags byte is looked at. */
  function ParseHeader(b: Bytes): Result<Header, WireError> {
    if |b| < DATA_HEADER_SIZE then Err(ShortData)
    else if b[0..4] != DATA_MAGIC then Err(BadMagic)
    else if b[4] != DATA_VERSION then Err(BadVersion)
    else
      var dir := if b[5] % 2 != 0 then ToClient else ToGateway;
      var id := PacketId(b[6..22], GetU64(b[22..30]));
      if !ValidId(id) then Err(BadIdentity) else Ok(Header(id, dir))
  }

  /** A header is refused for the first of these: fewer than 30 bytes, not "CVD1", not version 1, a zero
      session id or number. */
  lemma ParseRefuses(b: Bytes)
    ensures ParseHeader(b) == Err(ShortData) <==> |b| < 30
    ensures ParseHeader(b) == Err(BadMagic) <==> |b| >= 30 && b[..4] != [0x43, 0x56, 0x44, 0x31]
    ensures ParseHeader(b) == Err(BadVersion) <==> |b| >= 30 && b[..4] == [0x43, 0x56, 0x44, 0x31] && b[4] != 1
    ensures ParseHeader(b) == Err(BadIdentity) <==>
            && |b| >= 30 && b[..5] == [0x43, 0x56, 0x44, 0x31, 1]
            && (IsZero(b[6..22]) || GetU64(b[22..30]) == 0)
  {
    if |b| >= 30 {
      assert b[..4] == b[0..4] && b[..5] == b[..4] + [b[4]];
      assert [0x43, 0x56, 0x44, 0x31, 1][..4] == [0x43, 0x56, 0x44, 0x31];
    }
  }

  /** Whatever follows the header, a framed valid identity and direction are read back exactly. */
  lemma ParseFramed(h: Header, rest: Bytes)
    ensures ParseHeader(HeaderBytes(h) + rest) == if ValidId(h.id) then Ok(h) else Err(BadIdentity)
  {
    var b := HeaderBytes(h) + rest;
    assert b[0..4] == DATA_MAGIC;
    assert b[6..22] == h.id.session;
    assert b[22..30] == PutU64(h.id.number);
    U64RoundTrip(h.id.number);
  }

  /** Every accepted header is the framing of what was parsed, up to the seven unread flag bits;
      so it is the framing itself exactly when those bits are zero. */
  lemma ParsedIsFramed(b: Bytes, h: Header)
    requires ParseHeader(b) == Ok(h)
    ensures ValidId(h.id)
    ensures b[..5] == HeaderBytes(h)[..5] && b[6..30] == HeaderBytes(h)[6..]
    ensures b[..DATA_HEADER_SIZE] == HeaderBytes(h) <==> b[5] < 2
  {
    U64Bytes(b[22..30]);
    var f := HeaderBytes(h);
    assert b[..5] == b[0..4] + [b[4]];
    assert f[..5] == DATA_MAGIC + [DATA_VERSION];
    assert b[6..30] == b[6..22] + b[22..30];
    assert f[6..] == h.id.session + PutU64(h.id.number);
    assert b[..30] == b[..5] + [b[5]] + b[6..30];
    assert f == f[..5] + [f[5]] + f[6..];
  }

  /** The other case happens: a header with a spare flag bit set is accepted and reads as one that is
      framed without it. */
  lemma SpareFlagAccepted(h: Header)
    requires ValidId(h.id) && h.dir == ToGateway
    ensures var b := HeaderBytes(h)[5 := 2]; ParseHeader(b) == Ok(h) && b != HeaderBytes(h)
  {
    var f, b := HeaderBytes(h), HeaderBytes(h)[5 := 2];
    ParseFramed(h, []);
    assert f + [] == f && f[5] == 0;
    assert b[0..4] == f[0..4] && b[6..22] == f[6..22] && b[22..30] == f[22..30];
  }

  lemma HeaderInjective(g: Header, h: Header)
    requires HeaderBytes(g) == HeaderBytes(h)
    ensures g == h
  {
    var a, b := HeaderBytes(g), HeaderBytes(h);
    assert a[5] == DirByte(g.dir) && b[5] == DirByte(h.dir);
    assert a[6..22] == g.id.session && b[6..22] == h.id.session;
    assert a[22..] == PutU64(g.id.number) && b[22..] == PutU64(h.id.number);
    U64RoundTrip(g.id.number);
    U64RoundTrip(h.id.number);
  }

  /** The 12-byte nonce: direction, three zero bytes, packet number. */
  function Nonce(dir: Direction, number: U64): (b: Bytes)
    ensures |b| == 12
  {
    [DirByte(dir), 0, 0, 0] + PutU64(number)
  }

  /** What stands where in it: byte 0 is 0 towards the gateway and 1 towards the client, three zero bytes,
      then the number. */
  lemma NonceLayout(dir: Direction, number: U64)
    ensures var b := Nonce(dir, number);
            && |b| == 12 && b[0] == (if dir == ToClient then 1 else 0) && b[1] == 0 && b[2] == 0 && b[3] == 0
            && GetU64(b[4..12]) == number
  {
    assert Nonce(dir, number)[4..12] == PutU64(number);
    U64RoundTrip(number);
  }

  lemma NonceInjective(d1: Direction, n1: U64, d2: Direction, n2: U64)
    ensures Nonce(d1, n1) == Nonce(d2, n2) <==> d1 == d2 && n1 == n2
  {
    var a, b := Nonce(d1, n1), Nonce(d2, n2);
    assert a[0] == DirByte(d1) && b[0] == DirByte(d2);
    assert a[4..] == PutU64(n1) && b[4..] == PutU64(n2);
    U64RoundTrip(n1);
    U64RoundTrip(n2);
  }
}
