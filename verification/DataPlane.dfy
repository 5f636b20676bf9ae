/** The key store and, over it, the cache of responder sessions that decrypts, deduplicates and seals. */
module DataPlanes {
  import opened Basics
  import opened DataWire
  import opened SessionSpec
  import opened Sessions
  import opened GatewaySpec
  import Replay = ReplaySpec

  class SessionStore {
    var keys: Keys

    constructor ()
      ensures keys == map[]
    {
      keys := map[];
    }

    /** Stores a key for a free id; an id that is taken keeps its key. */
    method Register(id: SessionId, key: Bytes) returns (ok: bool)
      modifies this
      ensures ok <==> id !in old(keys)
      ensures keys == if ok then old(keys)[id := key] else old(keys)
    {
      if id in keys {
        return false;
      }
      keys := keys[id := key];
      return true;
    }

    method Forget(id: SessionId)
      modifies this
      ensures keys == old(keys) - {id}
    {
      keys := keys - {id};
    }
  }

  // ---- The data plane --------------------------------------------------------------------------

  class DataPlane {
    const store: SessionStore
    const aead: Aead
    const capacity: int
    var sessions: map<SessionId, SessionObject>

    ghost predicate Valid()
      reads this, Parts(sessions)
    {
      AllValid(sessions, aead)
    }

    ghost function State(): Cache
      reads this, Parts(sessions)
    {
      States(sessions)
    }

    constructor (store: SessionStore, aead: Aead, capacity: int)
      ensures Valid() && State() == map[] && Parts(sessions) == {}
      ensures this.store == store && this.aead == aead && this.capacity == capacity
    {
      this.store := store;
      this.aead := aead;
      this.capacity := capacity;
      sessions := map[];
    }

    lemma NoPart(table: map<SessionId, SessionObject>)
      ensures (this as object) !in Parts(table) && (store as object) !in Parts(table)
    {
    }

    method Install(id: SessionId, s: SessionObject)
      requires Valid() && s.Valid() && s.aead == aead
      requires forall k | k in sessions && k != id :: Separate(sessions[k], s)
      modifies this
      ensures Valid() && sessions == old(sessions)[id := s]
      ensures State() == old(State())[id := s.State()]
      ensures Parts(sessions) <= old(Parts(sessions)) + {s, s.window, s.window.words}
    {
      hide SessionObject.Valid, SessionObject.State, AllValid, States, Parts;
      AllWith(sessions, id, s, aead);
      NoPart(sessions);
      NoPart(sessions[id := s]);
      sessions := sessions[id := s];
    }

    method Build(id: SessionId) returns (s: SessionObject)
      requires Valid() && id !in sessions && id in store.keys
      requires !IsZero(id) && |store.keys[id]| == KEY_SIZE && capacity > 0
      modifies this
      ensures Valid() && fresh(Parts(sessions) - old(Parts(sessions)))
      ensures id in sessions && sessions[id] == s
      ensures New(id, store.keys[id], Responder, capacity) == Ok(s.State())
      ensures State() == old(State())[id := s.State()]
    {
      hide SessionObject.Valid, SessionObject.State, New, Parts;
      s := new SessionObject(id, store.keys[id], Responder, capacity, aead);
      Install(id, s);
    }

    /** The session of `id`: cached, or built once from its registered key. */
    method SessionFor(id: SessionId) returns (r: Result<SessionObject, PlaneError>)
      requires Valid()
      modifies this
      ensures Valid() && fresh(Parts(sessions) - old(Parts(sessions)))
      ensures match Resolve(store.keys, capacity, old(State()), id)
              case Err(e) => r == Err(e) && sessions == old(sessions) && State() == old(State())
              case Ok(s) =>
                && r.Ok? && id in sessions && r.value == sessions[id]
                && State() == old(State())[id := s]
    {
      if id in sessions {
        assert State() == State()[id := sessions[id].State()];
        return Ok(sessions[id]);
      }
      if id !in store.keys {
        return Err(UnknownSession);
      }
      var key := store.keys[id];
      if IsZero(id) {
        return Err(SessionFailed(ZeroSession));
      }
      if |key| != KEY_SIZE {
        return Err(SessionFailed(KeySize));
      }
      if capacity <= 0 {
        return Err(SessionFailed(Capacity));
      }
      var s := Build(id);
      return Ok(s);
    }

    /** Runs a datagram through the cached session of `id`; no other session is touched. */
    method Deliver(id: SessionId, datagram: Bytes) returns (r: Result<Inbound, SessionError>)
      requires Valid() && id in sessions
      modifies sessions[id].window, sessions[id].window.words
      ensures Valid()
      ensures match Authenticate(aead.vault, old(State())[id], datagram)
              case Err(e) => r == Err(e) && State() == old(State())
              case Ok(p) =>
                && r == Ok(Inbound(p.payload, Replay.Decide(old(State())[id].window, p.number)))
                && State() == old(State())[id := Observe(old(State())[id], p.number)]
    {
      hide AllValid, States, Authenticate, Observe, Replay.Decide;
      r := JudgeThrough(sessions, id, datagram, aead);
    }

    method HandleClassified(datagram: Bytes) returns (r: Result<Delivery, PlaneError>)
      requires Valid()
      modifies this, Parts(sessions)
      ensures Valid() && fresh(Parts(sessions) - old(Parts(sessions)))
      ensures var h := Handle(store.keys, capacity, old(State()), aead.vault, datagram);
              State() == h.cache && r == h.result
    {
      hide DataPlane.Valid, DataPlane.State, Authenticate, ParseHeader, Resolve, Observe, Replay.Decide, Parts;
      var parsed := ParseHeader(datagram);
      if parsed.Err? {
        return Err(BadDatagram(parsed.error));
      }
      var id := parsed.value.id.session;
      var s := SessionFor(id);
      if s.Err? {
        return Err(s.error);
      }
      PartsHold(sessions, id);
      var d := Deliver(id, datagram);
      if d.Err? {
        return Err(SessionFailed(d.error));
      }
      return Ok(Delivery(d.value.payload, d.value.decision));
    }

    /** Seals through the cached session of `id`; no other session is touched. */
    method Send(id: SessionId, payload: Bytes) returns (r: Result<Bytes, SessionError>)
      requires Valid() && id in sessions
      modifies sessions[id], aead
      ensures Valid()
      ensures |payload| > MAX_PAYLOAD ==> r == Err(Oversize) && State() == old(State()) && aead.vault == old(aead.vault)
      ensures |payload| <= MAX_PAYLOAD ==>
                var s := Assign(old(State())[id]);
                && State() == old(State())[id := s]
                && r == Ok(PacketWire(aead.enc, s, s.next, payload))
                && aead.vault == old(aead.vault)[PacketBox(aead.enc, s, s.next, payload) := payload]
    {
      hide AllValid, States, PacketBox, PacketWire, Assign;
      r := SendThrough(sessions, id, payload, aead);
    }

    method FrameReturn(id: SessionId, payload: Bytes) returns (r: Result<Bytes, PlaneError>)
      requires Valid()
      modifies this, Parts(sessions), aead
      ensures Valid() && fresh(Parts(sessions) - old(Parts(sessions)))
      ensures var f := Frame(aead.enc, store.keys, capacity, old(State()), old(aead.vault), id, payload);
              State() == f.cache && aead.vault == f.vault && r == f.result
    {
      hide DataPlane.Valid, DataPlane.State, Resolve, PacketBox, PacketWire, Assign, Parts;
      var s := SessionFor(id);
      if s.Err? {
        return Err(s.error);
      }
      PartsHold(sessions, id);
      var f := Send(id, payload);
      if f.Err? {
        return Err(SessionFailed(f.error));
      }
      return Ok(f.value);
    }

    method DropKey(id: SessionId)
      requires Valid()
      modifies store
      ensures Valid() && sessions == old(sessions) && State() == old(State()) && store.keys == old(store.keys) - {id}
    {
      hide SessionObject.Valid, SessionObject.State;
      store.Forget(id);
    }

    method Drop(id: SessionId)
      requires Valid()
      modifies this
      ensures Valid() && Parts(sessions) <= old(Parts(sessions)) && State() == old(State()) - {id}
    {
      hide AllValid, States, Parts;
      AllWithout(sessions, id, aead);
      NoPart(sessions);
      NoPart(sessions - {id});
      sessions := sessions - {id};
    }

    /** Ends a session: its key goes first, then its cached session. */
    method Forget(id: SessionId)
      requires Valid()
      modifies this, store
      ensures Valid() && Parts(sessions) <= old(Parts(sessions))
      ensures store.keys == old(store.keys) - {id} && State() == old(State()) - {id}
    {
      hide DataPlane.Valid, DataPlane.State, Parts;
      DropKey(id);
      Drop(id);
    }
  }
}
