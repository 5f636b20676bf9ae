/** The bridge itself: the two registries as objects, and the calls a host makes through handles. */
module Bridges {
  import opened Basics
  import opened BigEndian
  import opened HelloWire
  import DataWire
  import opened SessionSpec
  import opened Sessions
  import CH = ClientHandshakes
  import H = Handles
  import Replay = ReplaySpec

  const BAD_HANDLE := 1
  const BUFFER_SIZE := 2
  const CORE := 3
  const BAD_ARGS := 4
  const IDENTITY_SIZE: nat := 32

  class Registry<T> {
    var next: U64
    var live: map<U64, T>

    constructor ()
      ensures State() == H.Reg(0, map[])
    {
      next, live := 0, map[];
    }

    ghost function State(): H.Reg<T>
      reads this
    {
      H.Reg(next, live)
    }

    method Add(v: T) returns (h: U64)
      modifies this
      ensures h == H.NextHandle(old(State())) && State() == H.AddTo(old(State()), v)
    {
      next := (next + 1) % TWO_64;
      h := next;
      live := live[h := v];
    }

    method Get(h: U64) returns (r: Option<T>)
      ensures r == if h in live then Some(live[h]) else None
    {
      if h in live {
        return Some(live[h]);
      }
      return None;
    }

    method Remove(h: U64)
      modifies this
      ensures State() == H.RemoveFrom(old(State()), h)
    {
      live := live - {h};
    }

    /** Looks up and removes in one go. */
    method Take(h: U64) returns (r: Option<T>)
      modifies this
      ensures r == if h in old(live) then Some(old(live)[h]) else None
      ensures State() == H.RemoveFrom(old(State()), h)
    {
      r := Get(h);
      if r.Some? {
        live := live - {h};
      } else {
        assert live - {h} == live;
      }
    }
  }

  // ---- Traffic through a buffer ----------------------------------------------------------------

  /** The session and the sealed boxes afterwards, the code returned and the bytes written. */
  datatype SendResult = Sent(session: Session, vault: Vault, code: int, wire: Bytes)

  function Send(enc: Cipher, vault: Vault, s: Session, payload: Bytes, room: nat): (r: SendResult)
    ensures |r.wire| <= room
  {
    if |payload| > DataWire.MAX_PAYLOAD then Sent(s, vault, -CORE, [])
    else
      var s' := Assign(s);
      var wire := PacketWire(enc, s', s'.next, payload);
      var vault' := vault[PacketBox(enc, s', s'.next, payload) := payload];
      if |wire| > room then Sent(s', vault', -BUFFER_SIZE, []) else Sent(s', vault', |wire|, wire)
  }

  /** The length of the datagram that a session's next send makes of `payload`. */
  function DatagramLength(enc: Cipher, s: Session, payload: Bytes): nat {
    30 + |PacketBox(enc, s, (s.next + 1) % TWO_64, payload).ct|
  }

  /** A send succeeds exactly when the payload has at most 1600 bytes and its datagram fits, and then
      returns that length; an oversize payload is -3 and changes nothing, a short buffer is -2 and has
      used up the number. */
  lemma SendsExactly(enc: Cipher, vault: Vault, s: Session, payload: Bytes, room: nat)
    ensures var r, len := Send(enc, vault, s, payload, room), DatagramLength(enc, s, payload);
            && (r.code >= 0 <==> |payload| <= 1600 && len <= room) && (r.code >= 0 ==> r.code == len == |r.wire|)
            && (r.code == -3 <==> |payload| > 1600) && (r.code == -2 <==> |payload| <= 1600 && len > room)
            && (r.code < 0 ==> r.wire == [] && (r.code == -3 || r.code == -2))
            && (r.code == -3 ==> r.session == s && r.vault == vault)
            && (r.code != -3 ==>
                  var n := (s.next + 1) % TWO_64;
                  var box := PacketBox(enc, s, n, payload);
                  && r.session == s.(next := n) && r.vault == vault[box := payload] && Laid(box, s, n)
                  && (r.code >= 0 ==> r.wire == box.aad + box.ct))
  {
    hide PacketBox, PacketWire;
    var n := (s.next + 1) % TWO_64;
    BoxLayout(enc, s, n, payload);
    SameEnd(enc, s, Assign(s), n, payload);
  }

  lemma SameEnd(enc: Cipher, s: Session, t: Session, n: U64, payload: Bytes)
    requires s.id == t.id && s.key == t.key && s.role == t.role
    ensures PacketBox(enc, s, n, payload) == PacketBox(enc, t, n, payload)
    ensures PacketWire(enc, s, n, payload) == PacketWire(enc, t, n, payload)
  {
  }

  /** A host that gives every send 64 bytes beyond the payload is never short of room, as long as the
      cipher adds its 16-byte tag and nothing else. */
  lemma HostBufferSuffices(enc: Cipher, vault: Vault, s: Session, payload: Bytes)
    requires |PacketBox(enc, s, (s.next + 1) % TWO_64, payload).ct| == |payload| + 16
    ensures Send(enc, vault, s, payload, |payload| + 64).code == if |payload| <= 1600 then |payload| + 46 else -3
  {
    SendsExactly(enc, vault, s, payload, |payload| + 64);
    hide PacketBox, PacketWire, Send;
  }

  /** One inbound call: what has been sealed by then, the datagram, the room in the buffer. */
  datatype Call = Call(vault: Vault, wire: Bytes, room: nat)

  datatype ReceiveResult = Received(session: Session, code: int, deliver: bool, payload: Bytes)

  function Receive(s: Session, c: Call): (r: ReceiveResult)
    ensures |r.payload| <= c.room
  {
    match Authenticate(c.vault, s, c.wire)
    case Err(_) => Received(s, -CORE, false, [])
    case Ok(p) =>
      if |p.payload| > c.room then Received(Observe(s, p.number), -BUFFER_SIZE, false, [])
      else
        Received(Observe(s, p.number), |p.payload|, Replay.Decide(s.window, p.number) == Replay.FirstCopy, p.payload)
  }

  /** A receive returns the length of the payload it hands over, -3 for what does not authenticate, which
      changes nothing, or -2 for a payload that does not fit, which has been judged. */
  lemma ReceivesExactly(s: Session, c: Call)
    ensures var r, a := Receive(s, c), Authenticate(c.vault, s, c.wire);
            && (r.code == -3 <==> a.Err?) && (r.code == -2 <==> a.Ok? && |a.value.payload| > c.room)
            && (r.code >= 0 <==> a.Ok? && |a.value.payload| <= c.room)
            && (r.code >= 0 ==> r.code == |a.value.payload| && r.payload == a.value.payload)
            && (r.code < 0 ==> !r.deliver && r.payload == [])
            && r.session == if a.Ok? then Observe(s, a.value.number) else s
  {
    hide Authenticate, Observe, Replay.Decide;
  }

  /** The session after the calls, oldest first. */
  function After(s: Session, calls: seq<Call>): Session {
    if calls == [] then s
    else Receive(After(s, calls[..|calls| - 1]), calls[|calls| - 1]).session
  }

  function Outcome(s: Session, calls: seq<Call>, i: nat): ReceiveResult
    requires i < |calls|
  {
    Receive(After(s, calls[..i]), calls[i])
  }

  /** The packet a call authenticates, if any: it depends on nothing the calls before it did. */
  function Packet(s: Session, c: Call): Option<Plain> {
    match Authenticate(c.vault, s, c.wire)
    case Err(_) => None
    case Ok(p) => Some(p)
  }

  function Number(s: Session, c: Call): nat {
    if Packet(s, c).Some? then Packet(s, c).value.number else 0
  }

  function Numbers(s: Session, calls: seq<Call>): (ns: seq<nat>)
    ensures |ns| == |calls| && forall i | 0 <= i < |ns| :: ns[i] == Number(s, calls[i])
  {
    seq(|calls|, i requires 0 <= i < |calls| => Number(s, calls[i]))
  }

  lemma {:induction false} AfterShape(s: Session, calls: seq<Call>, width: nat)
    requires s.window == Replay.Fresh(width)
    ensures var t := After(s, calls);
            t.key == s.key && t.role == s.role && t.window == Replay.Run(width, Numbers(s, calls))
  {
    if calls != [] {
      var front, c := calls[..|calls| - 1], calls[|calls| - 1];
      AfterShape(s, front, width);
      assert Numbers(s, calls)[..|front|] == Numbers(s, front);
      assert Packet(After(s, front), c) == Packet(s, c);
    } else {
      assert Numbers(s, calls) == [];
    }
  }

  /** The decision each call takes on the packet it authenticates. */
  function Decision(s: Session, calls: seq<Call>, i: nat): Replay.Decision
    requires i < |calls|
  {
    Replay.DecisionAt(s.window.width, Numbers(s, calls), i)
  }

  /** A call tells the host to deliver exactly when it authenticates the first copy of a packet and
      the buffer holds it; what it then hands over is that packet. */
  lemma DeliversExactly(s: Session, calls: seq<Call>, i: nat)
    requires i < |calls| && s.window == Replay.Fresh(s.window.width)
    ensures var p := Packet(s, calls[i]);
            Outcome(s, calls, i).deliver <==>
              p.Some? && Decision(s, calls, i) == Replay.FirstCopy && |p.value.payload| <= calls[i].room
    ensures Outcome(s, calls, i).deliver ==> Outcome(s, calls, i).payload == Packet(s, calls[i]).value.payload
  {
    AfterShape(s, calls[..i], s.window.width);
    assert Numbers(s, calls)[..i] == Numbers(s, calls[..i]);
    assert Packet(After(s, calls[..i]), calls[i]) == Packet(s, calls[i]);
  }

  /** At most once, and nothing better: no two calls deliver the same packet, and a first copy that
      met too small a buffer is never delivered by any later call, however large its buffer. */
  lemma DeliveredAtMostOnce(s: Session, calls: seq<Call>, i: nat, j: nat)
    requires i < j < |calls| && s.window == Replay.Fresh(s.window.width) && s.window.width > 0
    requires Packet(s, calls[i]).Some? && Packet(s, calls[j]).Some?
    requires Packet(s, calls[i]).value.number == Packet(s, calls[j]).value.number
    ensures !Outcome(s, calls, j).deliver
  {
    DeliversExactly(s, calls, j);
    Replay.FirstCopyAtMostOnce(s.window.width, Numbers(s, calls), i, j);
  }

  /** What one end sends the other receives: the payload comes out as it went in, and is delivered the
      first time if the buffer holds it. */
  lemma SentIsReceived(enc: Cipher, vault: Vault, s: Session, r: Session, payload: Bytes, room: nat, room': nat)
    requires s.key == r.key && s.role == Peer(r.role) && !IsZero(s.id) && s.next + 1 < TWO_64
    requires Send(enc, vault, s, payload, room).code >= 0
    ensures var sent := Send(enc, vault, s, payload, room);
            var got := Receive(r, Call(sent.vault, sent.wire, room'));
            && got.session == Observe(r, s.next + 1)
            && (|payload| <= room' ==>
                  got.code == |payload| && got.payload == payload
                  && (got.deliver <==> Replay.Decide(r.window, s.next + 1) == Replay.FirstCopy))
            && (|payload| > room' ==> got.code == -BUFFER_SIZE && !got.deliver)
  {
    hide Authenticate, PacketWire, PacketBox, Observe, Replay.Decide;
    WireAuthenticates(enc, Send(enc, vault, s, payload, room).vault, Assign(s), r, Assign(s).next, payload);
  }

  // ---- Handshakes and sessions by handle -------------------------------------------------------

  /** A random session id with its lowest bit set, which keeps it from being the zero id. */
  function NonZero(random: SessionId): (id: SessionId)
    ensures !IsZero(id) && id[1..] == random[1..] && id[0] / 2 == random[0] / 2 && id[0] % 2 == 1
  {
    var id := random[0 := random[0] / 2 * 2 + 1];
    assert id[0] != 0;
    id
  }

  /** What randomness and the clock contribute to a ClientHello. */
  datatype Draw = Draw(random: Option<SessionId>, keyPair: Option<(Bytes, Bytes)>, now: I64)

  function Hello(d: Draw, token: Bytes): ClientHello
    requires d.random.Some? && d.keyPair.Some?
  {
    ClientHello(NonZero(d.random.value), d.now, d.keyPair.value.1, token)
  }

  lemma HelloLength(m: ClientHello)
    ensures ClientFits(m) ==> |ClientHelloBytes(m)| == CLIENT_FIXED + |m.token|
  {
  }

  ghost function PartsOf(made: Option<SessionObject>): set<object> {
    if made.None? then {} else {made.value, made.value.window, made.value.window.words}
  }

  /** `was` with its first bytes replaced by `b`, where they fit. */
  function Overwritten(was: Bytes, b: Bytes): Bytes {
    if |b| <= |was| then b + was[|b|..] else was
  }

  /** Exactly the first bytes, or none. */
  lemma OverwrittenIs(was: Bytes, b: Bytes)
    ensures var now := Overwritten(was, b);
            |now| == |was| && if |b| <= |was| then now[..|b|] == b && now[|b|..] == was[|b|..] else now == was
  {
  }

  /** What completing handle `h` yields, if it is live and the core completes. */
  function Completion(pending: map<U64, CH.ClientHandshake>, h: U64, crypto: CH.Crypto, serverHello: Bytes, capacity: int): Option<CH.Completed> {
    if h !in pending then None
    else match CH.Complete(pending[h], crypto, serverHello, capacity)
         case Err(_) => None
         case Ok(r) => Some(r)
  }

  /** A handle completes exactly when it is live and the core completes. */
  lemma CompletesHandle(pending: map<U64, CH.ClientHandshake>, h: U64, crypto: CH.Crypto, serverHello: Bytes, capacity: int, r: CH.Completed)
    ensures Completion(pending, h, crypto, serverHello, capacity) == Some(r) <==>
            h in pending && CH.Complete(pending[h], crypto, serverHello, capacity) == Ok(r)
  {
    hide CH.Complete;
  }

  lemma CompletedIsNew(hs: CH.ClientHandshake, c: CH.Crypto, serverHello: Bytes, capacity: int)
    ensures var r := CH.Complete(hs, c, serverHello, capacity);
            r.Ok? ==>
              && New(r.value.session.id, r.value.session.key, Initiator, capacity) == Ok(r.value.session)
              && |r.value.assignedIPv4| == 4
  {
  }

  /** A send that succeeds leaves its datagram at the front of the buffer. */
  lemma SentFills(enc: Cipher, vault: Vault, s: Session, payload: Bytes, was: Bytes, now: Bytes)
    requires now == Overwritten(was, Send(enc, vault, s, payload, |was|).wire)
    ensures var r := Send(enc, vault, s, payload, |was|);
            r.code >= 0 ==> r.session == Assign(s) && r.code <= |now| && now[..r.code] == r.wire
  {
    hide PacketWire, PacketBox;
  }

  lemma ReceivedFills(s: Session, c: Call, was: Bytes)
    requires c.room == |was|
    ensures var r := Receive(s, c);
            r.code >= 0 ==> r.code == |r.payload| <= |was| && Overwritten(was, r.payload)[..r.code] == r.payload
  {
    hide Authenticate, Observe, Replay.Decide;
  }

  class Host {
    const pending: Registry<CH.ClientHandshake>
    const sessions: Registry<SessionObject>
    const aead: Aead
    const crypto: CH.Crypto

    /** Live sessions are in order, share this cipher and nothing else, and none of the host's own
        objects is a part of one. */
    ghost predicate Valid()
      reads this, sessions, Parts(sessions.live)
    {
      AllValid(sessions.live, aead) && Outside(Parts(sessions.live))
    }

    ghost predicate Outside(parts: set<object>) {
      this !in parts && pending !in parts && sessions !in parts && aead !in parts && pending as object != sessions
    }

    constructor (aead: Aead, crypto: CH.Crypto)
      ensures Valid() && State() == H.Exec([]) && fresh(pending) && fresh(sessions)
      ensures this.aead == aead && this.crypto == crypto
    {
      this.aead := aead;
      this.crypto := crypto;
      pending := new Registry();
      sessions := new Registry();
    }

    ghost function State(): H.Bridge<SessionObject>
      reads pending, sessions
    {
      H.Bridge(pending.State(), sessions.State())
    }

    /** What each live handle stands for. */
    ghost function Live(): (m: map<U64, Session>)
      reads sessions, Parts(sessions.live)
      ensures m.Keys == sessions.live.Keys
    {
      States(sessions.live)
    }

    /** Starts a handshake: the hello is in `out` and its handle is live, or nothing has changed. */
    method BeginHandshake(gatewayPub: Bytes, token: Bytes, out: array<Byte>, d: Draw)
      returns (n: int, handle: U64)
      requires Valid() && out !in Parts(sessions.live)
      modifies pending, out
      ensures Valid() && Live() == old(Live())
      ensures n >= 0 <==>
              && |gatewayPub| == 32 && d.random.Some? && d.keyPair.Some? && |d.keyPair.value.1| == 32
              && |token| <= 4096 && 64 + |token| <= out.Length
      ensures n >= 0 ==>
                var ev := H.Begin(Some(CH.ClientHandshake(Hello(d, token).id, d.keyPair.value.0, gatewayPub)));
                && n <= out.Length && out[..n] == ClientHelloBytes(Hello(d, token)) && out[n..] == old(out[..])[n..]
                && State() == H.Step(old(State()), ev) && handle == H.Returned(old(State()), ev)
      ensures n < 0 ==> handle == 0 && State() == old(State()) && out[..] == old(out[..])
      ensures n >= 0 ==>
                DecodeClientHello(out[..n]) == Ok(ClientHello(NonZero(d.random.value), d.now, d.keyPair.value.1, token))
      ensures n == -4 <==> |gatewayPub| != 32
      ensures n == -3 <==>
              |gatewayPub| == 32 && (d.random.None? || d.keyPair.None? || |d.keyPair.value.1| != 32 || |token| > 4096)
      ensures n < 0 && n != -4 && n != -3 ==> n == -2
    {
      hide SessionObject.Valid, SessionObject.State, H.Step, H.Returned, ClientHelloBytes, DecodeClientHello;
      if |gatewayPub| != IDENTITY_SIZE {
        return -BAD_ARGS, 0;
      }
      if d.random.None? || d.keyPair.None? {
        return -CORE, 0;
      }
      HelloLength(Hello(d, token));
      if ClientFits(Hello(d, token)) {
        ClientHelloDecodes(Hello(d, token));
      }
      var hello := EncodeClientHello(Hello(d, token));
      if hello.Err? {
        return -CORE, 0;
      }
      if |hello.value| > out.Length {
        return -BUFFER_SIZE, 0;
      }
      Fill(out, hello.value);
      handle := Enlist(CH.ClientHandshake(Hello(d, token).id, d.keyPair.value.0, gatewayPub));
      return |hello.value|, handle;
    }

    /** Gives a handshake a handle. */
    method Enlist(hs: CH.ClientHandshake) returns (h: U64)
      requires Valid()
      modifies pending
      ensures Valid() && Live() == old(Live())
      ensures State() == H.Step(old(State()), H.Begin(Some(hs))) && h == H.Returned(old(State()), H.Begin(Some(hs)))
    {
      hide SessionObject.Valid, SessionObject.State;
      h := pending.Add(hs);
    }

    /** Gives a new session a handle. */
    method Adopt(s: SessionObject) returns (h: U64)
      requires Valid() && s.Valid() && s.aead == aead && Outside({s, s.window, s.window.words})
      requires forall k | k in sessions.live :: Separate(sessions.live[k], s)
      modifies sessions
      ensures Valid() && Parts(sessions.live) <= old(Parts(sessions.live)) + {s, s.window, s.window.words}
      ensures pending.State() == old(pending.State()) && sessions.State() == H.AddTo(old(sessions.State()), s)
      ensures h == H.NextHandle(old(sessions.State())) && Live() == old(Live())[h := s.State()]
    {
      hide SessionObject.Valid, SessionObject.State;
      ApartWith(sessions.live, H.NextHandle(sessions.State()), s);
      h := sessions.Add(s);
    }

    /** Consumes the handshake handle and, if the core completes, registers the session. */
    method CompleteHandshake(h: U64, serverHello: Bytes, capacity: int, addressOut: array<Byte>)
      returns (handle: U64, ghost made: Option<SessionObject>)
      requires Valid() && addressOut !in Parts(sessions.live)
      modifies pending, sessions, addressOut
      ensures Valid() && fresh(PartsOf(made)) && Parts(sessions.live) <= old(Parts(sessions.live)) + PartsOf(made)
      ensures State() == H.Step(old(State()), H.Complete(h, made)) && handle == H.Returned(old(State()), H.Complete(h, made))
      ensures var r := Completion(old(pending.live), h, crypto, serverHello, capacity);
              && (r.None? ==> made.None? && Live() == old(Live()) && addressOut[..] == old(addressOut[..]))
              && (r.Some? ==>
                    && made.Some? && Live() == old(Live())[handle := r.value.session]
                    && addressOut[..] == Overwritten(old(addressOut[..]), r.value.assignedIPv4))
    {
      hide Host.Valid, Host.Live, CH.Complete, New, Overwritten, Parts;
      made := None;
      var hs := TakePending(h);
      if hs.None? {
        return 0, None;
      }
      var r := CH.Complete(hs.value, crypto, serverHello, capacity);
      if r.Err? {
        return 0, None;
      }
      CompletedIsNew(hs.value, crypto, serverHello, capacity);
      handle, made := Establish(r.value, capacity, addressOut);
    }

    /** Hands out the assigned address and registers the completed session. */
    method Establish(r: CH.Completed, capacity: int, addressOut: array<Byte>)
      returns (handle: U64, ghost made: Option<SessionObject>)
      requires Valid() && addressOut !in Parts(sessions.live)
      requires New(r.session.id, r.session.key, Initiator, capacity) == Ok(r.session)
      modifies sessions, addressOut
      ensures Valid() && pending.State() == old(pending.State())
      ensures fresh(PartsOf(made)) && Parts(sessions.live) <= old(Parts(sessions.live)) + PartsOf(made)
      ensures made.Some? && handle == H.NextHandle(old(sessions.State()))
      ensures sessions.State() == H.AddTo(old(sessions.State()), made.value) && Live() == old(Live())[handle := r.session]
      ensures addressOut[..] == Overwritten(old(addressOut[..]), r.assignedIPv4)
    {
      hide Host.Valid, Host.Live, New, Overwritten, Parts, PartsOf, H.AddTo, H.NextHandle;
      Fill(addressOut, r.assignedIPv4);
      handle, made := Register(r.session.id, r.session.key, Initiator, capacity);
    }

    /** Fills the front of the caller's buffer, where there is room. */
    method Fill(out: array<Byte>, b: Bytes)
      requires Valid() && out !in Parts(sessions.live)
      modifies out
      ensures Valid() && Live() == old(Live()) && out[..] == Overwritten(old(out[..]), b)
    {
      hide SessionObject.Valid, SessionObject.State;
      if |b| <= out.Length {
        CopyInto(out, 0, b);
      }
    }

    /** Builds a session and gives it a handle; 0 when it cannot be built. */
    method Register(id: SessionId, key: Bytes, role: Role, capacity: int)
      returns (handle: U64, ghost made: Option<SessionObject>)
      requires Valid()
      modifies sessions
      ensures Valid() && pending.State() == old(pending.State())
      ensures fresh(PartsOf(made)) && Parts(sessions.live) <= old(Parts(sessions.live)) + PartsOf(made)
      ensures match New(id, key, role, capacity)
              case Err(_) => made.None? && handle == 0 && sessions.State() == old(sessions.State()) && Live() == old(Live())
              case Ok(s) =>
                && made.Some? && handle == H.NextHandle(old(sessions.State()))
                && sessions.State() == H.AddTo(old(sessions.State()), made.value) && Live() == old(Live())[handle := s]
    {
      hide SessionObject.Valid, SessionObject.State, New, Apart, Host.Live, H.AddTo, H.NextHandle;
      made := None;
      var s := SessionObject.Make(id, key, role, capacity, aead);
      if s.Err? {
        return 0, None;
      }
      handle := Adopt(s.value);
      made := Some(s.value);
    }

    method TakePending(h: U64) returns (r: Option<CH.ClientHandshake>)
      requires Valid()
      modifies pending
      ensures Valid() && Live() == old(Live())
      ensures r == if h in old(pending.live) then Some(old(pending.live)[h]) else None
      ensures pending.State() == H.RemoveFrom(old(pending.State()), h) && sessions.State() == old(sessions.State())
    {
      hide SessionObject.Valid, SessionObject.State;
      r := pending.Take(h);
    }

    method CancelHandshake(h: U64)
      requires Valid()
      modifies pending
      ensures Valid() && Live() == old(Live()) && State() == H.Step(old(State()), H.Cancel(h))
    {
      hide Host.Valid, Host.Live;
      var _ := TakePending(h);
    }

    /** Builds a session from the host's own id and key; 0 when any of them is unusable. */
    method CreateSession(id: Bytes, key: Bytes, role: Role, capacity: int)
      returns (handle: U64, ghost made: Option<SessionObject>)
      requires Valid()
      modifies sessions
      ensures Valid() && fresh(PartsOf(made)) && Parts(sessions.live) <= old(Parts(sessions.live)) + PartsOf(made)
      ensures State() == H.Step(old(State()), H.Create(made)) && handle == H.Returned(old(State()), H.Create(made))
      ensures made.Some? <==> |id| == 16 && New(id, key, role, capacity).Ok?
      ensures made.None? ==> Live() == old(Live())
      ensures made.Some? ==> Live() == old(Live())[handle := New(id, key, role, capacity).value]
    {
      hide Host.Valid, Host.Live, SessionObject.State, New, Parts;
      if |id| != 16 {
        return 0, None;
      }
      handle, made := Register(id, key, role, capacity);
    }

    method FreeSession(h: U64)
      requires Valid()
      modifies sessions
      ensures Valid() && Parts(sessions.live) <= old(Parts(sessions.live))
      ensures Live() == old(Live()) - {h} && State() == H.Step(old(State()), H.Free(h))
    {
      hide AllValid, States;
      AllWithout(sessions.live, h, aead);
      sessions.Remove(h);
    }

    /** Seals through the session of `h` into `out`. A packet that does not fit has still used up its
        number. */
    method OutboundInto(h: U64, payload: Bytes, out: array<Byte>) returns (n: int)
      requires Valid() && out !in Parts(sessions.live)
      modifies out, aead, Parts(sessions.live)
      ensures Valid() && State() == old(State()) && sessions.live == old(sessions.live)
      ensures h !in old(sessions.live) ==> n == -BAD_HANDLE && out[..] == old(out[..]) && Live() == old(Live()) && aead.vault == old(aead.vault)
      ensures h in old(sessions.live) ==>
                var r := Send(aead.enc, old(aead.vault), old(Live())[h], payload, out.Length);
                && n == r.code && aead.vault == r.vault && Live() == old(Live())[h := r.session]
                && out[..] == Overwritten(old(out[..]), r.wire)
      ensures h in old(sessions.live) ==>
                var len := DatagramLength(aead.enc, old(Live())[h], payload);
                && (n >= 0 <==> |payload| <= 1600 && len <= out.Length) && (n >= 0 ==> n == len)
                && (n == -3 <==> |payload| > 1600) && (n == -2 <==> |payload| <= 1600 && len > out.Length)
      ensures n == -1 <==> h !in old(sessions.live)
    {
      hide Host.Valid, Host.Live, PacketWire, PacketBox, DatagramLength, Laid;
      if h in sessions.live {
        SendsExactly(aead.enc, aead.vault, Live()[h], payload, out.Length);
      }
      if h !in sessions.live {
        return -BAD_HANDLE;
      }
      PartsHold(sessions.live, h);
      var framed := Seal(h, payload);
      if framed.Err? {
        return -CORE;
      }
      if |framed.value| > out.Length {
        return -BUFFER_SIZE;
      }
      Fill(out, framed.value);
      return |framed.value|;
    }

    /** Sends through one live session; no other is touched. */
    method Seal(h: U64, payload: Bytes) returns (r: Result<Bytes, SessionError>)
      requires Valid() && h in sessions.live
      modifies sessions.live[h], aead
      ensures Valid()
      ensures |payload| > DataWire.MAX_PAYLOAD ==> r == Err(Oversize) && Live() == old(Live()) && aead.vault == old(aead.vault)
      ensures |payload| <= DataWire.MAX_PAYLOAD ==>
                var s := Assign(old(Live())[h]);
                && Live() == old(Live())[h := s] && r == Ok(PacketWire(aead.enc, s, s.next, payload))
                && aead.vault == old(aead.vault)[PacketBox(aead.enc, s, s.next, payload) := payload]
    {
      hide AllValid, States, PacketBox, PacketWire, Assign, Host.Outside;
      r := SendThrough(sessions.live, h, payload, aead);
    }

    /** Judges a datagram through one live session; no other is touched. */
    method Judge(h: U64, wire: Bytes) returns (r: Result<Inbound, SessionError>)
      requires Valid() && h in sessions.live
      modifies sessions.live[h].window, sessions.live[h].window.words
      ensures Valid()
      ensures match Authenticate(aead.vault, old(Live())[h], wire)
              case Err(e) => r == Err(e) && Live() == old(Live())
              case Ok(p) =>
                && r == Ok(Inbound(p.payload, Replay.Decide(old(Live())[h].window, p.number)))
                && Live() == old(Live())[h := Observe(old(Live())[h], p.number)]
    {
      hide AllValid, States, Authenticate, Observe, Replay.Decide, Host.Outside;
      r := JudgeThrough(sessions.live, h, wire, aead);
    }

    /** Opens through the session of `h` into `out`. */
    method InboundInto(h: U64, wire: Bytes, out: array<Byte>) returns (n: int, deliver: bool)
      requires Valid() && out !in Parts(sessions.live)
      modifies out, Parts(sessions.live)
      ensures Valid() && State() == old(State())
      ensures h !in old(sessions.live) ==> n == -BAD_HANDLE && !deliver && out[..] == old(out[..]) && Live() == old(Live())
      ensures h in old(sessions.live) ==>
                var r := Receive(old(Live())[h], Call(aead.vault, wire, out.Length));
                && n == r.code && deliver == r.deliver && Live() == old(Live())[h := r.session]
                && out[..] == Overwritten(old(out[..]), r.payload)
      ensures h in old(sessions.live) ==>
                var a := Authenticate(aead.vault, old(Live())[h], wire);
                && (n == -3 <==> a.Err?) && (n == -2 <==> a.Ok? && |a.value.payload| > out.Length)
                && (n >= 0 ==> n == |a.value.payload| && out[..n] == a.value.payload)
      ensures n == -1 <==> h !in old(sessions.live)
    {
      hide Host.Valid, Host.Live, Authenticate, Observe, Replay.Decide;
      deliver := false;
      if h !in sessions.live {
        return -BAD_HANDLE, false;
      }
      PartsHold(sessions.live, h);
      var r := Judge(h, wire);
      if r.Err? {
        return -CORE, false;
      }
      if |r.value.payload| > out.Length {
        return -BUFFER_SIZE, false;
      }
      Fill(out, r.value.payload);
      return |r.value.payload|, r.value.decision == Replay.FirstCopy;
    }

    /** Two calls in a row, one handle to the other: what the first seals the second opens. */
    method Exchange(h: U64, k: U64, payload: Bytes, wire: array<Byte>, out: array<Byte>)
      returns (n: int, got: int, deliver: bool)
      requires Valid() && wire !in Parts(sessions.live) && out !in Parts(sessions.live) && wire != out
      requires h in Live() && k in Live() && h != k && Live()[h].next + 1 < TWO_64
      requires Live()[h].key == Live()[k].key && Live()[h].role == Peer(Live()[k].role) && !IsZero(Live()[h].id)
      modifies wire, out, aead, Parts(sessions.live)
      ensures Valid() && State() == old(State())
      ensures n >= 0 <==> |payload| <= 1600 && DatagramLength(aead.enc, old(Live())[h], payload) <= wire.Length
      ensures n >= 0 ==>
                var number := old(Live())[h].next + 1;
                && Live() == old(Live())[h := Assign(old(Live())[h])][k := Observe(old(Live())[k], number)]
                && (|payload| <= out.Length ==>
                      && got == |payload| && out[..got] == payload
                      && (deliver <==> Replay.Decide(old(Live())[k].window, number) == Replay.FirstCopy))
                && (|payload| > out.Length ==> got == -BUFFER_SIZE && !deliver)
    {
      hide Host.Valid, Host.Live, Host.State, Observe, Replay.Decide, Send, Receive, Overwritten, DatagramLength, Authenticate;
      ghost var before := Live();
      n := OutboundInto(h, payload, wire);
      got, deliver := -1, false;
      if n >= 0 {
        SentFills(aead.enc, old(aead.vault), before[h], payload, old(wire[..]), wire[..]);
        ReceivedFills(before[k], Call(aead.vault, wire[..n], out.Length), old(out[..]));
        SentIsReceived(aead.enc, old(aead.vault), before[h], before[k], payload, wire.Length, out.Length);
        got, deliver := InboundInto(k, wire[..n], out);
      }
    }
  }
}
