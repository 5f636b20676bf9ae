/** The gateway's decisions as functions of its tables: which session answers for an id, what a
    handshake does to keys and leases, and which inner packets may leave the tunnel. */
module GatewaySpec {
  import opened Basics
  import opened BigEndian
  import opened DataWire
  import opened HelloWire
  import opened SessionSpec
  import opened Allocators
  import Replay = ReplaySpec

  // ---- Sessions cached over registered keys ----------------------------------------------------

  type Keys = map<SessionId, Bytes>
  type Cache = map<SessionId, Session>

  datatype PlaneError = BadDatagram(reason: WireError) | UnknownSession | SessionFailed(error: SessionError)

  /** The cached responder session of `id`, or a new one under its registered key. */
  function Resolve(keys: Keys, capacity: int, cache: Cache, id: SessionId): Result<Session, PlaneError> {
    if id in cache then Ok(cache[id])
    else if id !in keys then Err(UnknownSession)
    else match New(id, keys[id], Responder, capacity)
         case Err(e) => Err(SessionFailed(e))
         case Ok(s) => Ok(s)
  }

  datatype Delivery = Delivery(payload: Bytes, decision: Replay.Decision)

  datatype Handled = Handled(cache: Cache, result: Result<Delivery, PlaneError>)

  /** One data datagram: resolve, authenticate, then ask that session's window. */
  function Handle(keys: Keys, capacity: int, cache: Cache, vault: Vault, datagram: Bytes): Handled {
    match ParseHeader(datagram)
    case Err(e) => Handled(cache, Err(BadDatagram(e)))
    case Ok(h) =>
      var id := h.id.session;
      match Resolve(keys, capacity, cache, id)
      case Err(e) => Handled(cache, Err(e))
      case Ok(s) =>
        match Authenticate(vault, s, datagram)
        case Err(e) => Handled(cache[id := s], Err(SessionFailed(e)))
        case Ok(p) =>
          Handled(cache[id := Observe(s, p.number)], Ok(Delivery(p.payload, Replay.Decide(s.window, p.number))))
  }

  datatype Framed = Framed(cache: Cache, vault: Vault, result: Result<Bytes, PlaneError>)

  /** One return packet sealed for `id`. */
  function Frame(enc: Cipher, keys: Keys, capacity: int, cache: Cache, vault: Vault, id: SessionId, payload: Bytes): Framed {
    match Resolve(keys, capacity, cache, id)
    case Err(e) => Framed(cache, vault, Err(e))
    case Ok(s) =>
      if |payload| > MAX_PAYLOAD then Framed(cache[id := s], vault, Err(SessionFailed(Oversize)))
      else
        var s' := Assign(s);
        Framed(cache[id := s'], vault[PacketBox(enc, s', s'.next, payload) := payload],
               Ok(PacketWire(enc, s', s'.next, payload)))
  }

  /** A lookup finds the cached session, or a new one under the registered key, or fails because the id is
      neither cached nor registered, or because no session can be built. */
  lemma ResolvesExactly(keys: Keys, capacity: int, cache: Cache, id: SessionId)
    ensures var r := Resolve(keys, capacity, cache, id);
            && (id in cache ==> r == Ok(cache[id]))
            && (r == Err(UnknownSession) <==> id !in cache && id !in keys)
            && (id !in cache && id in keys ==>
                  && (r.Ok? <==> !IsZero(id) && |keys[id]| == 32 && capacity > 0)
                  && (r.Ok? ==>
                        && r.value.id == id && r.value.key == keys[id] && r.value.role == Responder
                        && r.value.next == 0 && r.value.window.accepted == {}))
  {
  }

  /** A datagram is refused for the first of these: its header does not parse, its id is unknown, no
      session can be built for it, or the session does not authenticate it. */
  lemma HandleRefuses(keys: Keys, capacity: int, cache: Cache, vault: Vault, datagram: Bytes, e: WireError)
    ensures var r := Handle(keys, capacity, cache, vault, datagram).result;
            && (r == Err(BadDatagram(e)) <==> ParseHeader(datagram) == Err(e))
            && (ParseHeader(datagram).Ok? ==>
                  var id := ParseHeader(datagram).value.id.session;
                  var s := Resolve(keys, capacity, cache, id);
                  && (r == Err(UnknownSession) <==> id !in cache && id !in keys)
                  && (s.Ok? ==>
                        match Authenticate(vault, s.value, datagram)
                        case Err(x) => r == Err(SessionFailed(x))
                        case Ok(p) => r == Ok(Delivery(p.payload, Replay.Decide(s.value.window, p.number)))))
  {
    hide ParseHeader, Authenticate, Replay.Decide;
  }

  /** A return packet is framed exactly when its session is found and it has at most 1600 bytes, and then
      under the session's next number; an oversize one takes no number. */
  lemma FramesExactly(enc: Cipher, keys: Keys, capacity: int, cache: Cache, vault: Vault, id: SessionId, payload: Bytes)
    ensures var f := Frame(enc, keys, capacity, cache, vault, id, payload);
            match Resolve(keys, capacity, cache, id)
            case Err(e) => f.result == Err(e) && f.cache == cache && f.vault == vault
            case Ok(s) =>
              && (f.result.Ok? <==> |payload| <= 1600)
              && (f.result.Err? ==> f.result == Err(SessionFailed(Oversize)) && f.cache == cache[id := s] && f.vault == vault)
              && (f.result.Ok? ==>
                    var n := (s.next + 1) % 0x1_0000_0000_0000_0000;
                    var box := PacketBox(enc, s, n, payload);
                    && Laid(box, s, n) && f.result == Ok(box.aad + box.ct) && f.vault == vault[box := payload]
                    && f.cache == cache[id := s.(next := n)])
  {
    hide Resolve, PacketBox, PacketWire, Laid;
    match Resolve(keys, capacity, cache, id)
    case Err(_) =>
    case Ok(s) =>
      BoxLayout(enc, s, Assign(s).next, payload);
      NextNumber(enc, s, payload);
  }

  lemma NextNumber(enc: Cipher, s: Session, payload: Bytes)
    ensures var s' := Assign(s);
            && PacketBox(enc, s', s'.next, payload) == PacketBox(enc, s, s'.next, payload)
            && PacketWire(enc, s', s'.next, payload) == PacketWire(enc, s, s'.next, payload)
  {
  }

  /** Every cached session is a responder for its id under the key registered for that id. */
  ghost predicate Coherent(keys: Keys, cache: Cache) {
    forall id | id in cache ::
      && id in keys && cache[id].key == keys[id]
      && cache[id].id == id && cache[id].role == Responder
  }

  lemma HandleCoherent(keys: Keys, capacity: int, cache: Cache, vault: Vault, datagram: Bytes)
    requires Coherent(keys, cache)
    ensures Coherent(keys, Handle(keys, capacity, cache, vault, datagram).cache)
  {
  }

  lemma FrameCoherent(enc: Cipher, keys: Keys, capacity: int, cache: Cache, vault: Vault, id: SessionId, payload: Bytes)
    requires Coherent(keys, cache)
    ensures Coherent(keys, Frame(enc, keys, capacity, cache, vault, id, payload).cache)
  {
  }

  lemma ForgetCoherent(keys: Keys, cache: Cache, id: SessionId)
    requires Coherent(keys, cache)
    ensures Coherent(keys - {id}, cache - {id})
  {
  }

  // ---- Handshake admission ---------------------------------------------------------------------

  /** What the outside world contributes to one handshake: the freshness check against the gateway's
      clock, a fresh ephemeral key pair, key derivation, the entitlement decision and the signature. */
  datatype Env = Env(
    isFresh: I64 -> bool, keyPair: Option<(Bytes, Bytes)>, derive: (Bytes, Bytes, SessionId) -> Option<Bytes>,
    admits: Bytes -> bool, sign: (Bytes, SessionId) -> Bytes)

  datatype Refusal =
    | BadHello(reason: HelloError) | StaleHello | NoKeyPair | NoSharedKey | NotEntitled | SessionReused
    | LeaseFailed | CannotAnswer

  datatype Admission = Admission(reply: Bytes, id: SessionId, tunnelIp: Option<Addr>)

  /** `leases` is absent while the exit path is off. */
  datatype Gate = Gate(keys: Keys, leases: Option<Leases>)

  datatype Answer = Answer(gate: Gate, result: Result<Admission, Refusal>)

  function As4(a: Addr): (b: Bytes)
    ensures |b| == 4
  {
    Encode(a, 4)
  }

  function Reply(env: Env, pub: Bytes, id: SessionId, ip: Option<Addr>): ServerHello {
    ServerHello(id, pub, env.sign(pub, id), if ip.Some? then As4(ip.value) else [0, 0, 0, 0])
  }

  /** The checks before anything is registered: the session id, its key and the ephemeral key. */
  function Checked(env: Env, hello: Bytes): Result<(SessionId, Bytes, Bytes), Refusal> {
    match DecodeClientHello(hello)
    case Err(e) => Err(BadHello(e))
    case Ok(m) =>
      if !env.isFresh(m.timestamp) then Err(StaleHello)
      else if env.keyPair.None? then Err(NoKeyPair)
      else
        match env.derive(env.keyPair.value.0, m.ephemeral, m.id)
        case None => Err(NoSharedKey)
        case Some(key) =>
          if !env.admits(m.token) then Err(NotEntitled)
          else Ok((m.id, key, env.keyPair.value.1))
  }

  /** Registers the key, leases an address, answers; a step that fails unwinds the registration. */
  function Handshake(g: Gate, env: Env, hello: Bytes): Answer {
    match Checked(env, hello)
    case Err(e) => Answer(g, Err(e))
    case Ok((id, key, pub)) =>
      if id in g.keys then Answer(g, Err(SessionReused))
      else
        var ip := if g.leases.Some? then LeaseFor(g.leases.value, id) else None;
        if g.leases.Some? && ip.None? then Answer(g, Err(LeaseFailed))
        else
          var leases := if g.leases.Some? then Some(AllocateIn(g.leases.value, id)) else None;
          var m := Reply(env, pub, id, ip);
          if !ServerFits(m) then Answer(Gate(g.keys, leases), Err(CannotAnswer))
          else Answer(Gate(g.keys[id := key], leases), Ok(Admission(ServerHelloBytes(m), id, ip)))
  }

  /** Everything an admission depends on: a fresh hello with an entitled token, a key pair and a shared
      key, an id that is not registered, an address for it while the exit path is on, and an answer of
      the proper sizes. */
  ghost predicate Admissible(g: Gate, env: Env, m: ClientHello) {
    && env.isFresh(m.timestamp) && env.admits(m.token) && env.keyPair.Some?
    && env.derive(env.keyPair.value.0, m.ephemeral, m.id).Some?
    && m.id !in g.keys
    && (g.leases.Some? ==> m.id in g.leases.value.forward || g.leases.value.free != [])
    && |env.keyPair.value.1| == EPHEMERAL_SIZE && |env.sign(env.keyPair.value.1, m.id)| == SIGNATURE_SIZE
  }

  /** A handshake is admitted exactly when the datagram is the encoding of such a hello; the id is then
      registered under the key agreed with that hello's ephemeral key. */
  lemma AdmittedExactly(g: Gate, env: Env, hello: Bytes)
    ensures Handshake(g, env, hello).result.Ok? <==>
            exists m :: ClientFits(m) && hello == ClientHelloBytes(m) && Admissible(g, env, m)
    ensures forall m | ClientFits(m) && hello == ClientHelloBytes(m) && Admissible(g, env, m) :: Admits(g, env, m)
  {
    if Handshake(g, env, hello).result.Ok? {
      var m := DecodeClientHello(hello).value;
      ClientHelloEncodes(hello, m);
      assert Admissible(g, env, m);
    }
    forall m | ClientFits(m) && hello == ClientHelloBytes(m) && Admissible(g, env, m)
      ensures Admits(g, env, m)
    {
      AdmissibleAdmits(g, env, m);
    }
  }

  /** `m` is admitted, and its id alone is newly registered, under the agreed key. */
  ghost predicate Admits(g: Gate, env: Env, m: ClientHello)
    requires ClientFits(m) && env.keyPair.Some?
  {
    var a := Handshake(g, env, ClientHelloBytes(m));
    && a.result.Ok? && a.result.value.id == m.id && m.id in a.gate.keys
    && env.derive(env.keyPair.value.0, m.ephemeral, m.id) == Some(a.gate.keys[m.id])
    && a.gate.keys == g.keys[m.id := a.gate.keys[m.id]]
  }

  lemma AdmissibleAdmits(g: Gate, env: Env, m: ClientHello)
    requires ClientFits(m) && Admissible(g, env, m)
    ensures Admits(g, env, m)
  {
    ClientHelloDecodes(m);
  }

  /** What a hello passes before anything is registered. */
  ghost predicate Passes(env: Env, m: ClientHello) {
    && env.isFresh(m.timestamp) && env.keyPair.Some?
    && env.derive(env.keyPair.value.0, m.ephemeral, m.id).Some? && env.admits(m.token)
  }

  /** Why a handshake is refused: the first of these, in this order. */
  lemma RefusedBecause(g: Gate, env: Env, m: ClientHello)
    requires ClientFits(m)
    ensures var r := Handshake(g, env, ClientHelloBytes(m)).result;
            && (r == Err(StaleHello) <==> !env.isFresh(m.timestamp))
            && (r == Err(NoKeyPair) <==> env.isFresh(m.timestamp) && env.keyPair.None?)
            && (r == Err(NoSharedKey) <==>
                  env.isFresh(m.timestamp) && env.keyPair.Some? && env.derive(env.keyPair.value.0, m.ephemeral, m.id).None?)
            && (r == Err(NotEntitled) <==>
                  && env.isFresh(m.timestamp) && env.keyPair.Some? && env.derive(env.keyPair.value.0, m.ephemeral, m.id).Some?
                  && !env.admits(m.token))
            && (r == Err(SessionReused) <==> Passes(env, m) && m.id in g.keys)
            && (r == Err(LeaseFailed) <==>
                  && Passes(env, m) && m.id !in g.keys && g.leases.Some?
                  && m.id !in g.leases.value.forward && g.leases.value.free == [])
            && (r == Err(CannotAnswer) <==>
                  && Passes(env, m) && m.id !in g.keys
                  && (g.leases.Some? ==> m.id in g.leases.value.forward || g.leases.value.free != [])
                  && (|env.keyPair.value.1| != 32 || |env.sign(env.keyPair.value.1, m.id)| != 64))
  {
    ClientHelloDecodes(m);
    hide ClientHelloBytes, DecodeClientHello, AllocateIn;
  }

  /** Bytes that are no hello are refused for what the decoder says of them, and only those. */
  lemma UndecodedIsRefused(g: Gate, env: Env, hello: Bytes, e: HelloError)
    ensures Handshake(g, env, hello).result == Err(BadHello(e)) <==> DecodeClientHello(hello) == Err(e)
  {
    hide DecodeClientHello, LeaseFor, AllocateIn;
  }

  /** With the exit path on, every registered session has a lease. */
  ghost predicate AllLeased(g: Gate) {
    g.leases.Some? ==> forall id | id in g.keys :: id in g.leases.value.forward
  }

  lemma HandshakeKeepsLeased(g: Gate, env: Env, hello: Bytes)
    requires AllLeased(g)
    ensures AllLeased(Handshake(g, env, hello).gate)
  {
  }

  /** A handshake never rebinds a registered id, so cached sessions stay under their keys. */
  lemma HandshakeCoherent(g: Gate, env: Env, hello: Bytes, cache: Cache)
    requires Coherent(g.keys, cache)
    ensures Coherent(Handshake(g, env, hello).gate.keys, cache)
  {
  }

  /** An admission registers exactly one new id; the address in the answer is leased to that id. */
  lemma AdmittedIsLeased(g: Gate, env: Env, hello: Bytes, a: Admission)
    requires Handshake(g, env, hello).result == Ok(a)
    ensures var g' := Handshake(g, env, hello).gate;
            && a.id !in g.keys && g'.keys.Keys == g.keys.Keys + {a.id}
            && (forall id | id in g.keys :: g'.keys[id] == g.keys[id])
            && DecodeServerHello(a.reply).Ok? && DecodeServerHello(a.reply).value.id == a.id
            && (g.leases.Some? ==>
                  && a.id in g'.leases.value.forward && a.tunnelIp == Some(g'.leases.value.forward[a.id])
                  && DecodeServerHello(a.reply).value.ipv4 == As4(g'.leases.value.forward[a.id]))
  {
    var (id, key, pub) := Checked(env, hello).value;
    ServerHelloDecodes(Reply(env, pub, id, a.tunnelIp));
  }

  /** The one failure that is not unwound in full: the answer cannot be encoded after a new address
      was leased. A caller sees it coming from the sizes of the ephemeral key and signature. */
  ghost predicate LeaksLease(g: Gate, env: Env, hello: Bytes) {
    match Checked(env, hello)
    case Err(_) => false
    case Ok((id, key, pub)) =>
      && id !in g.keys && g.leases.Some? && id !in g.leases.value.forward && g.leases.value.free != []
      && (|pub| != EPHEMERAL_SIZE || |env.sign(pub, id)| != SIGNATURE_SIZE)
  }

  /** A refused handshake never touches the keys, and leaves the leases as they were exactly when it
      is not that failure. */
  lemma RefusedLeavesState(g: Gate, env: Env, hello: Bytes)
    requires Handshake(g, env, hello).result.Err?
    ensures Handshake(g, env, hello).gate.keys == g.keys
    ensures Handshake(g, env, hello).gate == g <==> !LeaksLease(g, env, hello)
  {
    if LeaksLease(g, env, hello) {
      var (id, key, pub) := Checked(env, hello).value;
      assert id in Handshake(g, env, hello).gate.leases.value.forward;
    }
  }

  /** The failure happens: given an ephemeral key of the wrong size, a handshake that passes every check
      is refused and yet holds the pool's one address. */
  lemma UnanswerableLeaks(m: ClientHello, key: Bytes, a: Addr)
    requires ClientFits(m)
    ensures var env := Env(_ => true, Some(([], [])), (_, _, _) => Some(key), _ => true, (_, _) => []);
            var g := Gate(map[], Some(NoLeases([a])));
            var r := Handshake(g, env, ClientHelloBytes(m));
            r.result == Err(CannotAnswer) && r.gate != g && LeaseFor(r.gate.leases.value, m.id) == Some(a)
  {
    ClientHelloDecodes(m);
    var env := Env(_ => true, Some(([], [])), (_, _, _) => Some(key), _ => true, (_, _) => []);
    var g := Gate(map[], Some(NoLeases([a])));
    assert LeaksLease(g, env, ClientHelloBytes(m));
    RefusedLeavesState(g, env, ClientHelloBytes(m));
  }

  /** With ephemeral keys and signatures of their proper sizes no refusal leaves a trace. */
  lemma ProperSizesNeverLeak(g: Gate, env: Env, hello: Bytes)
    requires env.keyPair.Some? ==> |env.keyPair.value.1| == EPHEMERAL_SIZE
    requires forall pub, id :: |env.sign(pub, id)| == SIGNATURE_SIZE
    requires Handshake(g, env, hello).result.Err?
    ensures Handshake(g, env, hello).gate == g
  {
    RefusedLeavesState(g, env, hello);
  }

  // ---- Inner packets ---------------------------------------------------------------------------

  datatype Inner = Inner(src: Addr, dst: Addr)

  lemma FourBytes(b: Bytes)
    requires |b| == 4
    ensures Decode(b) < TWO_32
  {
    EncodeDecode(b);
    assert Pow256(4) == TWO_32;
  }

  function AddrOf(b: Bytes): Addr
    requires |b| == 4
  {
    FourBytes(b);
    Decode(b)
  }

  /** Source and destination of a raw IPv4 packet; none when it is too short or malformed. */
  function ParseIPv4(packet: Bytes): Option<Inner> {
    if |packet| < 20 then None
    else if packet[0] / 16 != 4 then None
    else
      var headerLen := packet[0] % 16 * 4;
      if headerLen < 20 || |packet| < headerLen then None
      else Some(Inner(AddrOf(packet[12..16]), AddrOf(packet[16..20])))
  }

  lemma AddressBytes(b: Bytes, a: Addr)
    requires |b| == 4
    ensures AddrOf(b) == a <==> b == As4(a)
  {
    EncodeDecode(b);
    assert Pow256(4) == TWO_32;
    DecodeEncode(a, 4);
  }

  /** Addresses are big-endian. */
  lemma AddressValue(b: Bytes)
    requires |b| == 4
    ensures AddrOf(b) == 0x100_0000 * (b[0] as int) + 0x1_0000 * (b[1] as int) + 0x100 * (b[2] as int) + b[3]
  {
    FourBytesValue(b);
  }

  /** A packet parses to two addresses if and only if it is long enough for its own header, says it is
      IPv4, and carries those addresses as written in an answer. */
  lemma ParsesExactly(packet: Bytes, inner: Inner)
    ensures ParseIPv4(packet) == Some(inner) <==>
            && |packet| >= 20 && 0x45 <= packet[0] <= 0x4f && |packet| >= 4 * (packet[0] - 0x40)
            && packet[12..20] == As4(inner.src) + As4(inner.dst)
  {
    if |packet| >= 20 {
      AddressBytes(packet[12..16], inner.src);
      AddressBytes(packet[16..20], inner.dst);
      hide AddrOf, As4;
      assert packet[12..20] == packet[12..16] + packet[16..20];
      var both := As4(inner.src) + As4(inner.dst);
      assert both[..4] == As4(inner.src) && both[4..] == As4(inner.dst);
      assert packet[12..20][..4] == packet[12..16] && packet[12..20][4..] == packet[16..20];
    }
  }

  datatype Egress = Forward | NoLease | BadInner | ReversePath

  /** The reverse-path filter: only packets whose source is the session's own lease pass. */
  function Filter(l: Leases, id: SessionId, packet: Bytes): Egress {
    if id !in l.forward then NoLease
    else match ParseIPv4(packet)
         case None => BadInner
         case Some(inner) => if inner.src != l.forward[id] then ReversePath else Forward
  }

  /** Reads as IPv4, with all of its own header there. */
  ghost predicate IsIPv4(packet: Bytes) {
    |packet| >= 20 && 0x45 <= packet[0] <= 0x4f && |packet| >= 4 * (packet[0] - 0x40)
  }

  /** A packet passes exactly when its session has a lease and it is an IPv4 packet whose source is that
      lease; the first of these that fails is the reason. */
  lemma FiltersExactly(l: Leases, id: SessionId, packet: Bytes)
    ensures Filter(l, id, packet) == NoLease <==> id !in l.forward
    ensures Filter(l, id, packet) == BadInner <==> id in l.forward && !IsIPv4(packet)
    ensures Filter(l, id, packet) == ReversePath <==> id in l.forward && IsIPv4(packet) && packet[12..16] != As4(l.forward[id])
    ensures Filter(l, id, packet) == Forward <==> id in l.forward && IsIPv4(packet) && packet[12..16] == As4(l.forward[id])
  {
    if id in l.forward && |packet| >= 20 {
      AddressBytes(packet[12..16], l.forward[id]);
      hide AddrOf, As4;
    }
  }
}
