/** The session object: a counter, a replay window and a shared cipher, updated in place. Each call
    is proved to be the sequence of atomic actions that `SessionSpec` defines. */
module Sessions {
  import opened Basics
  import opened DataWire
  import opened SessionSpec
  import opened ReplayWindows
  import Replay = ReplaySpec

  /** The cipher all sessions share, idealised: it opens exactly what it sealed. */
  class Aead {
    const enc: Cipher
    var vault: Vault

    constructor (enc: Cipher)
      ensures this.enc == enc && vault == map[]
    {
      this.enc := enc;
      vault := map[];
    }

    method Seal(key: Bytes, nonce: Bytes, aad: Bytes, plain: Bytes) returns (ct: Bytes)
      modifies this
      ensures ct == enc(key, nonce, aad, plain)
      ensures vault == old(vault)[SealBox(enc, key, nonce, aad, plain) := plain]
    {
      ct := enc(key, nonce, aad, plain);
      vault := vault[Box(key, nonce, aad, ct) := plain];
    }

    method OpenBox(key: Bytes, nonce: Bytes, aad: Bytes, ct: Bytes) returns (r: Option<Bytes>)
      ensures r == Open(vault, Box(key, nonce, aad, ct))
    {
      var box := Box(key, nonce, aad, ct);
      r := if box in vault then Some(vault[box]) else None;
    }
  }

  datatype Inbound = Inbound(payload: Bytes, decision: Replay.Decision)

  class SessionObject {
    const id: SessionId
    const role: Role
    const key: Bytes
    const aead: Aead
    const window: ReplayWindow
    var next: U64

    ghost predicate Valid()
      reads this, window, window.words
    {
      window.Valid() && !IsZero(id) && |key| == KEY_SIZE
    }

    ghost function State(): Session
      reads this, window
    {
      Session(id, role, key, next, window.State())
    }

    constructor (id: SessionId, key: Bytes, role: Role, capacity: int, aead: Aead)
      requires !IsZero(id) && |key| == KEY_SIZE && capacity > 0
      ensures Valid() && fresh(window) && fresh(window.words)
      ensures this.aead == aead && New(id, key, role, capacity) == Ok(State())
    {
      this.id := id;
      this.key := key;
      this.role := role;
      this.aead := aead;
      this.window := new ReplayWindow(capacity);
      next := 0;
    }

    /** A session, or the reason there cannot be one. */
    static method Make(id: SessionId, key: Bytes, role: Role, capacity: int, aead: Aead)
      returns (r: Result<SessionObject, SessionError>)
      ensures match New(id, key, role, capacity)
              case Err(e) => r == Err(e)
              case Ok(s) =>
                && r.Ok? && fresh(r.value) && fresh(r.value.window) && fresh(r.value.window.words)
                && r.value.Valid() && r.value.aead == aead && r.value.State() == s
    {
      if IsZero(id) {
        return Err(ZeroSession);
      }
      if |key| != KEY_SIZE {
        return Err(KeySize);
      }
      if capacity <= 0 {
        return Err(Capacity);
      }
      var s := new SessionObject(id, key, role, capacity, aead);
      return Ok(s);
    }

    /** Assigns the next number, seals and frames; an oversize payload takes no number. */
    method Outbound(payload: Bytes) returns (r: Result<Bytes, SessionError>)
      requires Valid()
      modifies this`next, aead
      ensures Valid()
      ensures |payload| > MAX_PAYLOAD ==> r == Err(Oversize) && State() == old(State()) && aead.vault == old(aead.vault)
      ensures |payload| <= MAX_PAYLOAD ==>
                var n := Assign(old(State())).next;
                && State() == Assign(old(State()))
                && r == Ok(PacketWire(aead.enc, State(), n, payload))
                && aead.vault == old(aead.vault)[PacketBox(aead.enc, State(), n, payload) := payload]
      ensures r.Ok? ==>
                var box := PacketBox(aead.enc, State(), State().next, payload);
                Laid(box, State(), State().next) && r.value == box.aad + box.ct && aead.vault[box] == payload
    {
      hide Laid;
      if |payload| > MAX_PAYLOAD {
        return Err(Oversize);
      }
      next := (next + 1) % TWO_64;
      var dir := SendDir(role);
      var header := FrameHeader(Header(PacketId(id, next), dir));
      var ciphertext := aead.Seal(key, Nonce(dir, next), header, payload);
      BoxLayout(aead.enc, State(), next, payload);
      return Ok(header + ciphertext);
    }

    /** Authenticates, then asks the window; a datagram that fails authentication touches nothing. */
    method InboundClassified(wire: Bytes) returns (r: Result<Inbound, SessionError>)
      requires Valid()
      modifies window, window.words
      ensures Valid()
      ensures match Authenticate(aead.vault, old(State()), wire)
              case Err(e) => r == Err(e) && State() == old(State())
              case Ok(p) =>
                && r == Ok(Inbound(p.payload, Replay.Decide(old(State()).window, p.number)))
                && State() == Observe(old(State()), p.number)
    {
      var parsed := ParseHeader(wire);
      if parsed.Err? {
        return Err(Malformed(parsed.error));
      }
      var h := parsed.value;
      if h.dir != PeerDir(role) {
        return Err(WrongDirection);
      }
      var plain := aead.OpenBox(key, Nonce(h.dir, h.id.number), wire[..DATA_HEADER_SIZE], wire[DATA_HEADER_SIZE..]);
      if plain.None? {
        return Err(OpenFailed);
      }
      var d := window.Observe(h.id.number);
      return Ok(Inbound(plain.value, d));
    }
  }

  // ---- Tables of sessions ----------------------------------------------------------------------

  /** Two sessions share no mutable object. */
  ghost predicate Separate(s: SessionObject, t: SessionObject) {
    s != t && s.window != t.window && s.window.words != t.window.words
  }

  ghost function Parts<K>(sessions: map<K, SessionObject>): set<object> {
    (set id | id in sessions :: sessions[id])
    + (set id | id in sessions :: sessions[id].window)
    + (set id | id in sessions :: sessions[id].window.words)
  }

  ghost predicate Apart<K>(sessions: map<K, SessionObject>) {
    forall i, j | i in sessions && j in sessions && i != j :: Separate(sessions[i], sessions[j])
  }

  lemma ApartWith<K>(sessions: map<K, SessionObject>, id: K, s: SessionObject)
    requires Apart(sessions) && forall k | k in sessions && k != id :: Separate(sessions[k], s)
    ensures Apart(sessions[id := s])
    ensures Parts(sessions[id := s]) <= Parts(sessions) + {s, s.window, s.window.words}
  {
  }

  lemma ApartWithout<K>(sessions: map<K, SessionObject>, id: K)
    requires Apart(sessions)
    ensures Apart(sessions - {id}) && Parts(sessions - {id}) <= Parts(sessions)
  {
  }

  lemma PartsHold<K>(sessions: map<K, SessionObject>, id: K)
    requires id in sessions
    ensures {sessions[id] as object, sessions[id].window as object, sessions[id].window.words as object} <= Parts(sessions)
  {
  }

  /** All in order, sharing one cipher and nothing else. */
  ghost predicate AllValid<K>(sessions: map<K, SessionObject>, aead: Aead)
    reads Parts(sessions)
  {
    Apart(sessions) && forall id | id in sessions :: sessions[id].Valid() && sessions[id].aead == aead
  }

  ghost function States<K>(sessions: map<K, SessionObject>): (m: map<K, Session>)
    reads Parts(sessions)
    ensures m.Keys == sessions.Keys
  {
    map id | id in sessions :: sessions[id].State()
  }

  lemma AllWith<K>(sessions: map<K, SessionObject>, id: K, s: SessionObject, aead: Aead)
    requires AllValid(sessions, aead) && s.Valid() && s.aead == aead
    requires forall k | k in sessions && k != id :: Separate(sessions[k], s)
    ensures AllValid(sessions[id := s], aead) && States(sessions[id := s]) == States(sessions)[id := s.State()]
    ensures Parts(sessions[id := s]) <= Parts(sessions) + {s, s.window, s.window.words}
  {
    hide SessionObject.Valid, SessionObject.State, Parts;
    ApartWith(sessions, id, s);
  }

  lemma AllWithout<K>(sessions: map<K, SessionObject>, id: K, aead: Aead)
    requires AllValid(sessions, aead)
    ensures AllValid(sessions - {id}, aead) && States(sessions - {id}) == States(sessions) - {id}
    ensures Parts(sessions - {id}) <= Parts(sessions)
  {
    hide SessionObject.Valid, SessionObject.State, Parts;
    ApartWithout(sessions, id);
  }

  /** Seals through the session of `id`; no other is touched. */
  method SendThrough<K>(sessions: map<K, SessionObject>, id: K, payload: Bytes, aead: Aead) returns (r: Result<Bytes, SessionError>)
    requires AllValid(sessions, aead) && id in sessions
    modifies sessions[id], aead
    ensures AllValid(sessions, aead)
    ensures |payload| > MAX_PAYLOAD ==> r == Err(Oversize) && States(sessions) == old(States(sessions)) && aead.vault == old(aead.vault)
    ensures |payload| <= MAX_PAYLOAD ==>
              var s := Assign(old(States(sessions))[id]);
              && States(sessions) == old(States(sessions))[id := s]
              && r == Ok(PacketWire(aead.enc, s, s.next, payload))
              && aead.vault == old(aead.vault)[PacketBox(aead.enc, s, s.next, payload) := payload]
  {
    hide SessionObject.Valid, SessionObject.State, PacketBox, PacketWire, Assign;
    ghost var before := States(sessions);
    r := sessions[id].Outbound(payload);
    assert forall k | k in sessions && k != id :: Separate(sessions[k], sessions[id]);
    assert forall k | k in sessions && k != id :: sessions[k].Valid() && sessions[k].State() == before[k];
    assert States(sessions) == before[id := sessions[id].State()];
  }

  /** Judges a datagram through the session of `id`; no other is touched. */
  method JudgeThrough<K>(sessions: map<K, SessionObject>, id: K, wire: Bytes, aead: Aead) returns (r: Result<Inbound, SessionError>)
    requires AllValid(sessions, aead) && id in sessions
    modifies sessions[id].window, sessions[id].window.words
    ensures AllValid(sessions, aead)
    ensures match Authenticate(aead.vault, old(States(sessions))[id], wire)
            case Err(e) => r == Err(e) && States(sessions) == old(States(sessions))
            case Ok(p) =>
              && r == Ok(Inbound(p.payload, Replay.Decide(old(States(sessions))[id].window, p.number)))
              && States(sessions) == old(States(sessions))[id := Observe(old(States(sessions))[id], p.number)]
  {
    hide SessionObject.Valid, SessionObject.State, Authenticate, Observe, Replay.Decide;
    ghost var before := States(sessions);
    r := sessions[id].InboundClassified(wire);
    assert forall k | k in sessions && k != id :: Separate(sessions[k], sessions[id]);
    assert forall k | k in sessions && k != id :: sessions[k].Valid() && sessions[k].State() == before[k];
    assert States(sessions) == before[id := sessions[id].State()];
  }
}
