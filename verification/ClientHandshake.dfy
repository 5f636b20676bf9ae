/** The client side of the handshake, and what the two sides hold once it succeeds. */
module ClientHandshakes {
  import opened Basics
  import opened HelloWire
  import opened SessionSpec
  import Gateway = GatewaySpec
  import Pair = SessionPair

  /** In-flight state between sending a ClientHello and receiving the ServerHello. */
  datatype ClientHandshake = ClientHandshake(id: SessionId, ephemeralPriv: Bytes, gatewayIdentity: Bytes)

  /** Signature verification (identity, ephemeral key, signature, id) and key derivation. */
  datatype Crypto = Crypto(
    verifies: (Bytes, Bytes, Bytes, SessionId) -> bool,
    derive: (Bytes, Bytes, SessionId) -> Option<Bytes>)

  datatype CompleteError =
    | BadServerHello(reason: HelloError) | WrongSession | BadSignature | NoSharedKey | NoSession(error: SessionError)

  datatype Completed = Completed(session: Session, assignedIPv4: Bytes)

  function Complete(hs: ClientHandshake, c: Crypto, serverHello: Bytes, capacity: int): Result<Completed, CompleteError> {
    match DecodeServerHello(serverHello)
    case Err(e) => Err(BadServerHello(e))
    case Ok(m) =>
      if m.id != hs.id then Err(WrongSession)
      else if !c.verifies(hs.gatewayIdentity, m.ephemeral, m.sig, m.id) then Err(BadSignature)
      else
        match c.derive(hs.ephemeralPriv, m.ephemeral, m.id)
        case None => Err(NoSharedKey)
        case Some(key) =>
          match New(m.id, key, Initiator, capacity)
          case Err(e) => Err(NoSession(e))
          case Ok(s) => Ok(Completed(s, m.ipv4))
  }

  /** The message the client was answered with: signed for this id under the pinned identity, and
      giving the session its key. */
  ghost predicate Answered(hs: ClientHandshake, c: Crypto, m: ServerHello, r: Completed) {
    && m.id == hs.id && c.verifies(hs.gatewayIdentity, m.ephemeral, m.sig, hs.id)
    && c.derive(hs.ephemeralPriv, m.ephemeral, hs.id) == Some(r.session.key) && r.assignedIPv4 == m.ipv4
  }

  /** A handshake completes exactly on the encodings of such messages, when a session can be built. */
  lemma CompletesExactly(hs: ClientHandshake, c: Crypto, serverHello: Bytes, capacity: int, r: Completed)
    ensures Complete(hs, c, serverHello, capacity) == Ok(r) <==>
            && (exists m :: ServerFits(m) && serverHello == ServerHelloBytes(m) && Answered(hs, c, m, r))
            && New(hs.id, r.session.key, Initiator, capacity) == Ok(r.session)
  {
    if Complete(hs, c, serverHello, capacity) == Ok(r) {
      var m := DecodeServerHello(serverHello).value;
      ServerHelloEncodes(serverHello, m);
      assert Answered(hs, c, m, r);
    }
    if m :| ServerFits(m) && serverHello == ServerHelloBytes(m) && Answered(hs, c, m, r) {
      ServerHelloDecodes(m);
    }
  }

  /** Why a client refuses an answer: the first of these, in this order. */
  lemma RefusesBecause(hs: ClientHandshake, c: Crypto, m: ServerHello, capacity: int, e: SessionError)
    requires ServerFits(m)
    ensures var r := Complete(hs, c, ServerHelloBytes(m), capacity);
            && (r == Err(WrongSession) <==> m.id != hs.id)
            && (r == Err(BadSignature) <==> m.id == hs.id && !c.verifies(hs.gatewayIdentity, m.ephemeral, m.sig, m.id))
            && (r == Err(NoSharedKey) <==>
                  && m.id == hs.id && c.verifies(hs.gatewayIdentity, m.ephemeral, m.sig, m.id)
                  && c.derive(hs.ephemeralPriv, m.ephemeral, m.id).None?)
            && (r == Err(NoSession(e)) <==>
                  && m.id == hs.id && c.verifies(hs.gatewayIdentity, m.ephemeral, m.sig, m.id)
                  && c.derive(hs.ephemeralPriv, m.ephemeral, m.id).Some?
                  && New(m.id, c.derive(hs.ephemeralPriv, m.ephemeral, m.id).value, Initiator, capacity) == Err(e))
  {
    ServerHelloDecodes(m);
    hide New, ServerHelloBytes, DecodeServerHello;
  }

  lemma UndecodedIsRefused(hs: ClientHandshake, c: Crypto, serverHello: Bytes, capacity: int, e: HelloError)
    ensures Complete(hs, c, serverHello, capacity) == Err(BadServerHello(e)) <==> DecodeServerHello(serverHello) == Err(e)
  {
    hide New, DecodeServerHello;
  }

  /** The gateway holds the pinned identity, and key agreement is symmetric for this exchange. */
  ghost predicate Paired(env: Gateway.Env, c: Crypto, hs: ClientHandshake, m: ClientHello) {
    env.keyPair.Some? ==>
      var (priv, pub) := env.keyPair.value;
      && c.verifies(hs.gatewayIdentity, pub, env.sign(pub, hs.id), hs.id)
      && c.derive(hs.ephemeralPriv, pub, hs.id) == env.derive(priv, m.ephemeral, hs.id)
  }

  /** What the gateway registers for an admitted hello, and what it answers. */
  lemma AdmittedKey(g: Gateway.Gate, env: Gateway.Env, m: ClientHello, a: Gateway.Admission)
    requires ClientFits(m) && Gateway.Handshake(g, env, ClientHelloBytes(m)).result == Ok(a)
    ensures env.keyPair.Some? && a.id == m.id
    ensures var (priv, pub) := env.keyPair.value;
            var answer := Gateway.Reply(env, pub, m.id, a.tunnelIp);
            && m.id in Gateway.Handshake(g, env, ClientHelloBytes(m)).gate.keys
            && env.derive(priv, m.ephemeral, m.id) == Some(Gateway.Handshake(g, env, ClientHelloBytes(m)).gate.keys[m.id])
            && ServerFits(answer) && a.reply == ServerHelloBytes(answer)
  {
    ClientHelloDecodes(m);
  }

  lemma ExitKept(g: Gateway.Gate, env: Gateway.Env, hello: Bytes, a: Gateway.Admission)
    requires Gateway.Handshake(g, env, hello).result == Ok(a)
    ensures Gateway.Handshake(g, env, hello).gate.leases.Some? == g.leases.Some?
    ensures g.leases.None? ==> a.tunnelIp == None
  {
  }

  /** The address leased to `id`, or zeroes while the exit path is off. */
  ghost function LeasedBytes(g: Gateway.Gate, id: SessionId): Bytes
    requires g.leases.Some? ==> id in g.leases.value.forward
  {
    if g.leases.Some? then Gateway.As4(g.leases.value.forward[id]) else [0, 0, 0, 0]
  }

  /** An admitted hello and its answer leave both sides at the start of one session pair: the client
      completes, and the gateway resolves the id to the other end of the same session, under the same
      key, each side with its own window. The client learns exactly the address leased to its id. */
  lemma HandshakeAgrees(
    g: Gateway.Gate, env: Gateway.Env, c: Crypto, hs: ClientHandshake, m: ClientHello, a: Gateway.Admission,
    clientCapacity: int, gatewayCapacity: int, cache: Gateway.Cache, enc: Cipher)
    returns (sh: Pair.Shared)
    requires ClientFits(m) && m.id == hs.id && !IsZero(hs.id) && Paired(env, c, hs, m)
    requires Gateway.Handshake(g, env, ClientHelloBytes(m)).result == Ok(a)
    requires |Gateway.Handshake(g, env, ClientHelloBytes(m)).gate.keys[a.id]| == KEY_SIZE
    requires clientCapacity > 0 && gatewayCapacity > 0 && Gateway.Coherent(g.keys, cache)
    ensures var g' := Gateway.Handshake(g, env, ClientHelloBytes(m)).gate;
            g'.leases.Some? ==> hs.id in g'.leases.value.forward
    ensures sh.id == hs.id && sh.enc == enc
    ensures var r := Complete(hs, c, a.reply, clientCapacity);
            && r.Ok? && r.value.session == Pair.Start(sh).ini.session
            && r.value.assignedIPv4 == LeasedBytes(Gateway.Handshake(g, env, ClientHelloBytes(m)).gate, hs.id)
    ensures Gateway.Resolve(Gateway.Handshake(g, env, ClientHelloBytes(m)).gate.keys, gatewayCapacity, cache, hs.id)
            == Ok(Pair.Start(sh).res.session)
  {
    AdmittedKey(g, env, m, a);
    Gateway.AdmittedIsLeased(g, env, ClientHelloBytes(m), a);
    ExitKept(g, env, ClientHelloBytes(m), a);
    var keys := Gateway.Handshake(g, env, ClientHelloBytes(m)).gate.keys;
    hide Gateway.Handshake;
    ServerHelloDecodes(Gateway.Reply(env, env.keyPair.value.1, m.id, a.tunnelIp));
    sh := Pair.Shared(enc, hs.id, keys[hs.id],
      role => if role == Initiator then Width(clientCapacity) else Width(gatewayCapacity));
  }
}
