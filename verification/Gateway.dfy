/** The gateway as a whole: one datagram at a time in from the network, one packet at a time back
    from the tunnel, over the key store, the session cache, the leases and the return paths. */
module Gateways {
  import opened Basics
  import opened HelloWire
  import opened SessionSpec
  import opened Sessions
  import opened GatewaySpec
  import opened Allocators
  import opened DataPlanes
  import opened Admissions
  import opened Routers
  import DataWire
  import P = PathSets
  import Replay = ReplaySpec

  /** What was decided about one datagram; `session` is the zero id unless it authenticated. */
  datatype DataRecord = DataRecord(kind: Kind, admitted: bool, deliver: bool, payload: Bytes, session: SessionId, tunnelIp: Option<Addr>)

  function Bare(kind: Kind): DataRecord {
    DataRecord(kind, false, false, [], ZERO_ID, None)
  }

  function HelloRecord(r: Result<Admission, Refusal>): DataRecord {
    match r
    case Err(_) => Bare(ClientHelloKind)
    case Ok(a) => Bare(ClientHelloKind).(admitted := true, session := a.id, tunnelIp := a.tunnelIp)
  }

  /** A rejected datagram names no session, so it can neither deliver nor register a return path. */
  function DataRecordOf(datagram: Bytes, r: Result<Delivery, PlaneError>): DataRecord {
    match DataWire.ParseHeader(datagram)
    case Err(_) => Bare(DataKind)
    case Ok(h) =>
      match r
      case Err(_) => Bare(DataKind)
      case Ok(d) =>
        var rec := Bare(DataKind).(session := h.id.session);
        if d.decision == Replay.FirstCopy then rec.(deliver := true, payload := d.payload) else rec
  }

  function PingReply(datagram: Bytes): Option<Bytes> {
    match DecodePing(datagram)
    case None => None
    case Some(p) => if p.isPong then None else Some(PingBytes(Ping(true, p.nonce)))
  }

  /** The path set after a datagram from `src`: an authenticated one records its endpoint. */
  function Recorded(paths: P.Paths, rec: DataRecord, src: Option<P.AddrPort>, now: P.Time): P.Paths {
    if rec.kind == DataKind && !IsZero(rec.session) && src.Some?
    then P.RecordState(paths, rec.session, src.value, now)
    else paths
  }

  /** What reaches the device: a first copy whose source is its session's lease. */
  function Egressed(l: Leases, rec: DataRecord, ok: bool): seq<Bytes> {
    if rec.kind == DataKind && !IsZero(rec.session) && rec.deliver && ok && Filter(l, rec.session, rec.payload) == Forward
    then [rec.payload]
    else []
  }

  /** What `HandleDatagram` answers and records, and the tables it leaves. */
  ghost predicate Dispatched(gate: Gate, cache: Cache, vault: Vault, capacity: int, datagram: Bytes, env: Env,
                          gate': Gate, cache': Cache, reply: Option<Bytes>, rec: DataRecord) {
    match Classify(datagram)
    case ClientHelloKind =>
      var a := Handshake(gate, env, datagram);
      && gate' == a.gate && cache' == cache && rec == HelloRecord(a.result)
      && reply == if a.result.Ok? then Some(a.result.value.reply) else None
    case DataKind =>
      var h := Handle(gate.keys, capacity, cache, vault, datagram);
      gate' == gate && cache' == h.cache && rec == DataRecordOf(datagram, h.result) && reply == None
    case PingKind => gate' == gate && cache' == cache && rec == Bare(PingKind) && reply == PingReply(datagram)
    case _ => gate' == gate && cache' == cache && rec == Bare(UnknownKind) && reply == None
  }

  /** `r` is the pong with the nonce of the ping that `datagram` is. */
  ghost predicate Pongs(datagram: Bytes, r: Bytes) {
    exists n: U64 :: datagram == PingBytes(Ping(false, n)) && r == PingBytes(Ping(true, n))
  }

  /** Exactly the pings are answered, each with the pong of its nonce, which is no longer than the ping. */
  lemma PingAnsweredExactly(datagram: Bytes, r: Bytes)
    ensures PingReply(datagram) == Some(r) <==> Pongs(datagram, r)
    ensures PingReply(datagram) == Some(r) ==> |r| == |datagram| && PingReply(r) == None
  {
    hide PingBytes, DecodePing;
    var d := DecodePing(datagram);
    if d.Some? {
      PingExactly(datagram, d.value);
      PingExactly(PingBytes(Ping(true, d.value.nonce)), Ping(true, d.value.nonce));
    }
    if n: U64 :| datagram == PingBytes(Ping(false, n)) && r == PingBytes(Ping(true, n)) {
      PingExactly(datagram, Ping(false, n));
    }
  }

  lemma PongIsUnanswered(n: U64)
    ensures PingReply(PingBytes(Ping(true, n))) == None
  {
    PingExactly(PingBytes(Ping(true, n)), Ping(true, n));
  }

  /** Whatever a gateway answers, no gateway answers that: two of them cannot keep a datagram going. */
  lemma RepliesEnd(gate: Gate, cache: Cache, vault: Vault, capacity: int, datagram: Bytes, env: Env, gate': Gate, cache': Cache, r: Bytes, rec: DataRecord,
                   gate2: Gate, cache2: Cache, vault2: Vault, capacity2: int, env2: Env, gate2': Gate, cache2': Cache, reply2: Option<Bytes>, rec2: DataRecord)
    requires Dispatched(gate, cache, vault, capacity, datagram, env, gate', cache', Some(r), rec)
    requires Dispatched(gate2, cache2, vault2, capacity2, r, env2, gate2', cache2', reply2, rec2)
    ensures reply2 == None && gate2' == gate2 && cache2' == cache2
  {
    hide Classify, PingBytes, DecodePing, Handle, HelloRecord, DataRecordOf;
    if Classify(datagram) == PingKind {
      PingAnsweredExactly(datagram, r);
      var n: U64 :| datagram == PingBytes(Ping(false, n)) && r == PingBytes(Ping(true, n));
      PingExactly(r, Ping(true, n));
      ClassifiedByDecoder(r);
      PongIsUnanswered(n);
    } else {
      AnswerIsServerHello(gate, env, datagram);
      ClassifiedByDecoder(r);
    }
  }

  lemma AnswerIsServerHello(g: Gate, env: Env, hello: Bytes)
    ensures var a := Handshake(g, env, hello).result; a.Ok? ==> DecodeServerHello(a.value.reply).Ok?
  {
    if Handshake(g, env, hello).result.Ok? {
      AdmittedIsLeased(g, env, hello, Handshake(g, env, hello).result.value);
    }
  }

  /** The record of a data datagram: it names the session exactly when the session authenticated it, and
      delivers its payload exactly when it is a first copy. */
  lemma DataRecordExactly(keys: Keys, capacity: int, cache: Cache, vault: Vault, datagram: Bytes)
    ensures var r := Handle(keys, capacity, cache, vault, datagram).result;
            var rec := DataRecordOf(datagram, r);
            && rec.kind == DataKind && !rec.admitted && rec.tunnelIp == None
            && (r.Err? ==> rec.session == ZERO_ID && !rec.deliver && rec.payload == [])
            && (r.Ok? ==>
                  && DataWire.ParseHeader(datagram).Ok? && rec.session == DataWire.ParseHeader(datagram).value.id.session
                  && !IsZero(rec.session) && (rec.deliver <==> r.value.decision == Replay.FirstCopy)
                  && rec.payload == if rec.deliver then r.value.payload else [])
  {
    NamedIsNonZero(datagram);
    hide DataWire.ParseHeader, Authenticate, Resolve, Replay.Decide;
  }

  lemma NamedIsNonZero(datagram: Bytes)
    ensures DataWire.ParseHeader(datagram).Ok? ==> !IsZero(DataWire.ParseHeader(datagram).value.id.session)
  {
  }

  /** What one data datagram does beyond its session: exactly the authenticated ones, duplicates and stale
      copies included, record their endpoint, and exactly the first copies that are IPv4 packets from their
      session's lease reach a device that accepts. */
  lemma ServesExactly(keys: Keys, capacity: int, cache: Cache, vault: Vault, datagram: Bytes, paths: P.Paths,
                      src: Option<P.AddrPort>, now: P.Time, l: Leases, ok: bool)
    ensures var r := Handle(keys, capacity, cache, vault, datagram).result;
            var rec := DataRecordOf(datagram, r);
            && (r.Ok? ==> DataWire.ParseHeader(datagram).Ok?)
            && Recorded(paths, rec, src, now)
               == (if r.Ok? && src.Some? then P.RecordState(paths, DataWire.ParseHeader(datagram).value.id.session, src.value, now) else paths)
            && Egressed(l, rec, ok)
               == if && r.Ok? && r.value.decision == Replay.FirstCopy && ok && IsIPv4(r.value.payload)
                     && var id := DataWire.ParseHeader(datagram).value.id.session;
                        id in l.forward && r.value.payload[12..16] == As4(l.forward[id])
                  then [r.value.payload] else []
  {
    hide DataWire.ParseHeader, Handle, DataRecordOf, Filter, P.RecordState, As4, IsIPv4;
    DataRecordExactly(keys, capacity, cache, vault, datagram);
    var rec := DataRecordOf(datagram, Handle(keys, capacity, cache, vault, datagram).result);
    FiltersExactly(l, rec.session, rec.payload);
    ZeroIsZero();
  }

  lemma ZeroIsZero()
    ensures IsZero(ZERO_ID)
  {
  }

  /** The record of a handshake: admitted exactly when it is, and then with its id and address. */
  lemma HelloRecordExactly(g: Gate, env: Env, hello: Bytes)
    ensures var r := Handshake(g, env, hello).result;
            var rec := HelloRecord(r);
            && rec.kind == ClientHelloKind && !rec.deliver && rec.payload == [] && (rec.admitted <==> r.Ok?)
            && rec.session == (if r.Ok? then r.value.id else ZERO_ID)
            && rec.tunnelIp == if r.Ok? then r.value.tunnelIp else None
  {
    hide Handshake;
  }

  class DataGateway {
    const store: SessionStore
    const aead: Aead
    const plane: DataPlane
    const admitter: Admitter
    /** The exit path; null while it is off. */
    var exit: Router?

    constructor (enc: Cipher, capacity: int)
      ensures Valid() && exit == null
      ensures plane.State() == map[] && store.keys == map[]
    {
      var keys := new SessionStore();
      var cipher := new Aead(enc);
      store, aead := keys, cipher;
      plane := new DataPlane(keys, cipher, capacity);
      admitter := new Admitter(keys);
      exit := null;
    }

    ghost predicate Wired()
      reads this, admitter
    {
      && plane.store == store && plane.aead == aead && admitter.store == store
      && (exit == null ==> admitter.alloc == null)
      && (exit != null ==> exit.plane == plane && admitter.alloc == exit.alloc)
    }

    /** The joint invariant: cached sessions are responders under their registered keys, and with the
        exit path on every registered session has a lease. */
    ghost predicate Valid()
      reads this, store, plane, Parts(plane.sessions), admitter, admitter.alloc
    {
      && Wired() && plane.Valid() && admitter.Valid()
      && Coherent(store.keys, plane.State()) && AllLeased(admitter.State())
      && Outside(Parts(plane.sessions))
    }

    /** None of the gateway's own objects is a part of a session or of a path slice. */
    ghost predicate Outside(parts: set<object>)
      reads this, admitter
    {
      && this !in parts && store !in parts && aead !in parts && plane !in parts && admitter !in parts
      && (admitter.alloc != null ==> admitter.alloc !in parts)
      && (exit != null ==> exit !in parts && exit.paths !in parts)
    }

    method HandleHello(datagram: Bytes, env: Env) returns (reply: Option<Bytes>, rec: DataRecord)
      requires Valid()
      modifies store, admitter.alloc
      ensures Valid() && plane.State() == old(plane.State())
      ensures var a := Handshake(old(admitter.State()), env, datagram);
              && admitter.State() == a.gate && rec == HelloRecord(a.result)
              && reply == if a.result.Ok? then Some(a.result.value.reply) else None
    {
      hide DataPlane.Valid, DataPlane.State, Handshake, Coherent, AllLeased;
      HandshakeKeepsLeased(admitter.State(), env, datagram);
      HandshakeCoherent(admitter.State(), env, datagram, plane.State());
      var r := admitter.Handshake(datagram, env);
      rec := HelloRecord(r);
      reply := if r.Ok? then Some(r.value.reply) else None;
    }

    method HandleData(datagram: Bytes) returns (rec: DataRecord)
      requires Valid()
      modifies plane, Parts(plane.sessions)
      ensures Valid() && fresh(Parts(plane.sessions) - old(Parts(plane.sessions)))
      ensures admitter.State() == old(admitter.State())
      ensures var h := Handle(store.keys, plane.capacity, old(plane.State()), aead.vault, datagram);
              plane.State() == h.cache && rec == DataRecordOf(datagram, h.result)
    {
      hide DataPlane.Valid, DataPlane.State, Handle, Coherent, AllLeased, Admitter.Valid, DataRecordOf;
      HandleCoherent(store.keys, plane.capacity, plane.State(), aead.vault, datagram);
      var r := plane.HandleClassified(datagram);
      rec := DataRecordOf(datagram, r);
    }

    method HandleDatagram(datagram: Bytes, env: Env) returns (reply: Option<Bytes>, rec: DataRecord)
      requires Valid()
      modifies store, admitter.alloc, plane, Parts(plane.sessions)
      ensures Valid() && fresh(Parts(plane.sessions) - old(Parts(plane.sessions)))
      ensures Dispatched(old(admitter.State()), old(plane.State()), aead.vault, plane.capacity, datagram, env,
                      admitter.State(), plane.State(), reply, rec)
      ensures Classify(datagram) == PingKind ==> forall r: Bytes :: reply == Some(r) <==> Pongs(datagram, r)
      ensures forall n: U64 :: datagram == PingBytes(Ping(true, n)) ==> reply == None
    {
      hide DataPlane.Valid, Admitter.Valid, Coherent, AllLeased;
      hide DataPlane.State, Handle, Handshake, PingReply, HelloRecord, DataRecordOf, Pongs, Classify, PingBytes;
      forall r: Bytes ensures PingReply(datagram) == Some(r) <==> Pongs(datagram, r) {
        PingAnsweredExactly(datagram, r);
      }
      forall n: U64 | datagram == PingBytes(Ping(true, n)) ensures Classify(datagram) == PingKind && PingReply(datagram) == None {
        PongIsUnanswered(n);
        PingExactly(datagram, Ping(true, n));
        ClassifiedByDecoder(datagram);
      }
      match Classify(datagram)
      case ClientHelloKind => reply, rec := HandleHello(datagram, env);
      case DataKind =>
        rec := HandleData(datagram);
        reply := None;
      case PingKind => reply, rec := PingReply(datagram), Bare(PingKind);
      case _ => reply, rec := None, Bare(UnknownKind);
    }

    /** The exit path's own tables are sound and apart from the sessions. */
    ghost predicate ExitValid()
      reads this, plane, admitter, if exit == null then {} else {exit.paths} + exit.paths.Buffers()
    {
      exit != null ==>
        && exit.paths.Valid() && exit.paths.Buffers() !! Parts(plane.sessions) && Outside(exit.paths.Buffers())
    }

    /** The body of the receive loop for one datagram from `src`. */
    method ServeOne(datagram: Bytes, src: Option<P.AddrPort>, now: P.Time, env: Env, ok: bool)
      returns (reply: Option<Bytes>, rec: DataRecord)
      requires Valid() && ExitValid()
      modifies store, admitter.alloc, plane, Parts(plane.sessions)
      modifies if exit == null then {} else {exit as object, exit.paths as object} + exit.paths.Buffers()
      ensures Valid() && ExitValid()
      ensures Dispatched(old(admitter.State()), old(plane.State()), aead.vault, plane.capacity, datagram, env,
                      admitter.State(), plane.State(), reply, rec)
      ensures exit != null ==>
                && exit.paths.State() == Recorded(old(exit.paths.State()), rec, src, now)
                && exit.written == old(exit.written) + Egressed(exit.alloc.State(), rec, ok)
    {
      hide DataPlane.Valid, DataPlane.State, Coherent, AllLeased, Dispatched, P.PathSet.Valid, P.PathSet.State;
      hide Admitter.Valid, Recorded, Egressed;
      reply, rec := HandleDatagram(datagram, env);
      if exit != null {
        Onward(rec, src, now, ok);
      }
    }

    /** Records the return path of an authenticated datagram and lets a first copy out. */
    method Onward(rec: DataRecord, src: Option<P.AddrPort>, now: P.Time, ok: bool)
      requires Valid() && ExitValid() && exit != null
      modifies exit, exit.paths, exit.paths.Buffers()
      ensures Valid() && ExitValid()
      ensures plane.State() == old(plane.State()) && admitter.State() == old(admitter.State())
      ensures exit.paths.State() == Recorded(old(exit.paths.State()), rec, src, now)
      ensures exit.written == old(exit.written) + Egressed(exit.alloc.State(), rec, ok)
    {
      hide DataPlane.State, P.PathSet.State, P.RecordState, Filter, DataGateway.ExitValid, DataGateway.Valid;
      if rec.kind == DataKind && !IsZero(rec.session) {
        if src.Some? {
          NotePath(rec.session, src.value, now);
        }
        if rec.deliver {
          LetOut(rec.session, rec.payload, ok);
        }
      }
    }

    method LetOut(id: SessionId, packet: Bytes, ok: bool)
      requires Valid() && ExitValid() && exit != null
      modifies exit
      ensures Valid() && ExitValid() && exit.paths.State() == old(exit.paths.State())
      ensures plane.State() == old(plane.State()) && admitter.State() == old(admitter.State())
      ensures exit.written == old(exit.written) + if ok && Filter(exit.alloc.State(), id, packet) == Forward then [packet] else []
    {
      hide DataPlane.Valid, DataPlane.State, Coherent, AllLeased, P.PathSet.Valid, P.PathSet.State, Allocator.Valid, Filter;
      var _ := exit.Egress(id, packet, ok);
    }

    method NotePath(id: SessionId, src: P.AddrPort, now: P.Time)
      requires Valid() && ExitValid() && exit != null
      modifies exit.paths, exit.paths.Buffers()
      ensures Valid() && ExitValid() && fresh(exit.paths.Buffers() - old(exit.paths.Buffers()))
      ensures plane.State() == old(plane.State()) && admitter.State() == old(admitter.State())
      ensures exit.paths.State() == P.RecordState(old(exit.paths.State()), id, src, now)
    {
      hide DataPlane.Valid, DataPlane.State, Coherent, AllLeased, P.PathSet.Valid, P.PathSet.State, Allocator.Valid;
      hide P.RecordState;
      exit.paths.Record(id, src, now);
    }

    /** One packet read from the tunnel device. */
    method ReturnPacket(packet: Bytes, now: P.Time, accepts: P.AddrPort -> bool) returns (v: Verdict)
      requires Valid() && ExitValid() && exit != null
      modifies exit, exit.paths, exit.paths.Buffers(), plane, Parts(plane.sessions), aead
      ensures Valid() && ExitValid() && admitter.State() == old(admitter.State())
      ensures var r := Route(aead.enc, store.keys, plane.capacity, exit.alloc.State(), old(plane.State()),
                             old(aead.vault), old(exit.paths.State()), packet, now - exit.paths.ttl);
              && v == r.verdict
              && plane.State() == r.cache && aead.vault == r.vault && exit.paths.State() == r.paths
      ensures exit.sent == old(exit.sent) + if v.SendTo? then Accepted(v.framed, v.dsts, accepts) else []
    {
      hide DataPlane.Valid, DataPlane.State, Coherent, AllLeased, P.PathSet.Valid, P.PathSet.State, Allocator.Valid;
      hide Route, Accepted, Router.Valid, DataGateway.Outside;
      RouterReady();
      RouteCoherent(aead.enc, store.keys, plane.capacity, exit.alloc.State(), plane.State(), aead.vault,
                    exit.paths.State(), packet, now - exit.paths.ttl);
      v := RouteOut(packet, now, accepts);
      GatewayReady();
    }

    /** The router's part of it. */
    method RouteOut(packet: Bytes, now: P.Time, accepts: P.AddrPort -> bool) returns (v: Verdict)
      requires Wired() && exit != null && exit.Valid() && admitter.Valid()
      modifies exit, exit.paths, exit.paths.Buffers(), plane, Parts(plane.sessions), aead
      ensures Wired() && exit == old(exit) && exit.Valid() && admitter.Valid() && admitter.State() == old(admitter.State())
      ensures store.keys == old(store.keys)
      ensures var r := Route(aead.enc, store.keys, plane.capacity, exit.alloc.State(), old(plane.State()),
                             old(aead.vault), old(exit.paths.State()), packet, now - exit.paths.ttl);
              && v == r.verdict
              && plane.State() == r.cache && aead.vault == r.vault && exit.paths.State() == r.paths
      ensures exit.sent == old(exit.sent) + if v.SendTo? then Accepted(v.framed, v.dsts, accepts) else []
    {
      hide DataPlane.Valid, DataPlane.State, P.PathSet.Valid, P.PathSet.State, Allocator.Valid, Route, Accepted;
      v := exit.ReturnOne(packet, now, accepts);
    }

    lemma RouterReady()
      requires Valid() && ExitValid() && exit != null
      ensures exit.Valid()
    {
      hide DataPlane.Valid, DataPlane.State, P.PathSet.Valid, Allocator.Valid, Coherent, AllLeased;
    }

    /** No object of the gateway is of a kind that sessions or path slices are made of. */
    lemma GatewayReady()
      requires Wired() && exit != null && exit.Valid() && admitter.Valid()
      requires Coherent(store.keys, plane.State()) && AllLeased(admitter.State())
      ensures Valid() && ExitValid()
    {
      hide DataPlane.Valid, DataPlane.State, P.PathSet.Valid, Allocator.Valid, Coherent, AllLeased;
    }

    /** Ends a session: neither its key nor its cached session remains; its lease does. */
    method Forget(id: SessionId)
      requires Valid() && ExitValid()
      modifies plane, store
      ensures Valid() && ExitValid()
      ensures store.keys == old(store.keys) - {id} && plane.State() == old(plane.State()) - {id}
      ensures admitter.State().leases == old(admitter.State()).leases
    {
      hide DataPlane.Valid, DataPlane.State, Coherent, P.PathSet.Valid;
      ForgetCoherent(store.keys, plane.State(), id);
      plane.Forget(id);
    }

    /** Turns the exit path on. The joint invariant holds afterwards exactly when every session that was
        registered by then has a lease. */
    method EnableExit(r: Router)
      requires Valid() && r.Valid() && r.plane == plane
      requires this !in r.paths.Buffers() && admitter !in r.paths.Buffers()
      modifies this, admitter
      ensures exit == r && ExitValid() && plane.State() == old(plane.State())
      ensures admitter.State() == Gate(old(store.keys), Some(r.alloc.State()))
      ensures Valid() <==> forall id | id in store.keys :: id in r.alloc.forward
    {
      hide DataPlane.Valid, DataPlane.State, Coherent, P.PathSet.Valid, Allocator.Valid;
      exit := r;
      admitter.alloc := r.alloc;
    }
  }
}
