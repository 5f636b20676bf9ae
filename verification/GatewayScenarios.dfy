/** Concrete runs of the gateway: what can happen once an id is forgotten and comes back, and when an
    answer cannot be encoded. */
module GatewayScenarios {
  import opened Basics
  import opened DataWire
  import opened SessionSpec
  import opened GatewaySpec
  import opened Allocators
  import opened GatewayRuns
  import Safety = GatewaySafety
  import Nonces = GatewayNonces
  import Refines = GatewayRefines
  import P = PathSets
  import Replay = ReplaySpec

  // ---- Building blocks -------------------------------------------------------------------------

  lemma Admit(cfg: Config, m: Machine, id: SessionId, key: Bytes)
    requires m.recv == Ready && id !in m.keys && LeaseFor(m.leases, id).Some?
    ensures Step(cfg, Step(cfg, m, Hello(id, key)), Event.Lease(true))
         == m.(keys := m.keys[id := key], used := m.used + {key}, leases := AllocateIn(m.leases, id))
  {
    hide LeaseFor, AllocateIn;
  }

  lemma ReplyChosen(cfg: Config, m: Machine, id: SessionId, packet: Bytes, s: Session)
    requires m.ret == Waiting && id in m.keys && id !in m.cache
    requires LeasedBack(m, id, packet) && New(id, m.keys[id], Responder, cfg.capacity) == Ok(s)
    ensures Step(cfg, Step(cfg, m, Packet(packet)), Choose)
         == m.(cache := m.cache[id := |m.sessions|], sessions := m.sessions + [s], born := m.born + [m.forgotten[id]],
              ret := Chosen(id, packet, |m.sessions|))
  {
    hide ParseIPv4, New;
    assert Step(cfg, m, Packet(packet)) == m.(ret := Looked(id, packet));
  }

  lemma ReplySealed(cfg: Config, m: Machine, id: SessionId, packet: Bytes, i: nat)
    requires m.ret == Chosen(id, packet, i) && i < |m.sessions| && |packet| <= MAX_PAYLOAD
    ensures var m', s := Step(cfg, Step(cfg, m, Number), SealIt), Assign(m.sessions[i]);
            m' == m.(sessions := m.sessions[i := s], seals := m.seals + [Seal(i, s.next, packet)], vault := m'.vault,
                     ret := Sealed(id, packet, i, s.next))
  {
    hide PacketBox, Assign;
    var s := Assign(m.sessions[i]);
    assert Step(cfg, m, Number) == m.(sessions := m.sessions[i := s], ret := Numbered(id, packet, i, s.next));
  }

  ghost predicate LeasedBack(m: Machine, id: SessionId, packet: Bytes) {
    && ParseIPv4(packet).Some?
    && var dst := ParseIPv4(packet).value.dst; dst in m.leases.reverse && m.leases.reverse[dst] == id
  }

  /** A packet for `id` from its arrival to its delivery. */
  function Replied(cfg: Config, m: Machine, packet: Bytes, accepts: P.AddrPort -> bool): Machine {
    var chosen := Step(cfg, Step(cfg, m, Packet(packet)), Choose);
    Step(cfg, Step(cfg, Step(cfg, chosen, Number), SealIt), Deliver(accepts))
  }

  /** The sends of a reply that `m` has sealed as session `i`. */
  function SendsOf(cfg: Config, m: Machine, id: SessionId, packet: Bytes, i: nat, n: U64, accepts: P.AddrPort -> bool): seq<Send>
    requires i < |m.sessions|
  {
    Copies(Send(id, i, n, packet, PacketWire(cfg.enc, m.sessions[i], n, packet), P.AddrPort([], 0), m.clock),
           P.FreshIn(m.paths, id, m.clock - cfg.ttl), accepts)
  }

  lemma DeliverEnds(cfg: Config, m: Machine, id: SessionId, packet: Bytes, i: nat, n: U64, accepts: P.AddrPort -> bool)
    requires m.ret == Sealed(id, packet, i, n) && i < |m.sessions|
    ensures var m' := Step(cfg, m, Deliver(accepts));
            m' == m.(paths := m'.paths, notes := m'.notes, noted := m'.noted, ret := Waiting,
                     sends := m.sends + SendsOf(cfg, m, id, packet, i, n, accepts))
  {
    hide PacketWire, P.PruneState, P.FreshIn, Copies;
  }

  /** `m'` follows from `m` by one reply of the session built for it. */
  ghost predicate RepliedOnce(cfg: Config, m: Machine, m': Machine, id: SessionId, packet: Bytes, accepts: P.AddrPort -> bool, s: Session) {
    && m'.sessions == m.sessions + [Assign(s)] && m'.seals == m.seals + [Seal(|m.sessions|, Assign(s).next, packet)]
    && m'.keys == m.keys && m'.leases == m.leases && m'.recv == m.recv && m'.ret == Waiting
    && m'.auths == m.auths && m'.clock == m.clock
    && m'.sends == m.sends + Copies(Send(id, |m.sessions|, Assign(s).next, packet,
                                         PacketWire(cfg.enc, Assign(s), Assign(s).next, packet), P.AddrPort([], 0), m.clock),
                                    P.FreshIn(m.paths, id, m.clock - cfg.ttl), accepts)
  }

  /** `m'` has sealed a reply for `id` and sent nothing yet. */
  ghost predicate ReplyReady(m: Machine, m': Machine, id: SessionId, packet: Bytes, s: Session) {
    && m'.sessions == m.sessions + [Assign(s)] && m'.seals == m.seals + [Seal(|m.sessions|, Assign(s).next, packet)]
    && m'.keys == m.keys && m'.leases == m.leases && m'.recv == m.recv && m'.auths == m.auths && m'.clock == m.clock
    && m'.paths == m.paths && m'.sends == m.sends && m'.ret == Sealed(id, packet, |m.sessions|, Assign(s).next)
  }

  lemma ReplyReadies(cfg: Config, m: Machine, id: SessionId, packet: Bytes, s: Session)
    requires m.ret == Waiting && id in m.keys && id !in m.cache && |packet| <= MAX_PAYLOAD
    requires LeasedBack(m, id, packet) && New(id, m.keys[id], Responder, cfg.capacity) == Ok(s)
    ensures var chosen := Step(cfg, Step(cfg, m, Packet(packet)), Choose);
            ReplyReady(m, Step(cfg, Step(cfg, chosen, Number), SealIt), id, packet, s)
  {
    hide Step, New, Assign, LeasedBack;
    ReplyChosen(cfg, m, id, packet, s);
    ReplySealed(cfg, Step(cfg, Step(cfg, m, Packet(packet)), Choose), id, packet, |m.sessions|);
  }

  lemma ReplySeals(cfg: Config, m: Machine, id: SessionId, packet: Bytes, accepts: P.AddrPort -> bool, s: Session)
    requires m.ret == Waiting && id in m.keys && id !in m.cache && |packet| <= MAX_PAYLOAD
    requires LeasedBack(m, id, packet) && New(id, m.keys[id], Responder, cfg.capacity) == Ok(s)
    ensures RepliedOnce(cfg, m, Replied(cfg, m, packet, accepts), id, packet, accepts, s)
  {
    hide Step, New, Assign, LeasedBack, Copies, PacketWire, P.FreshIn;
    ReplyReadies(cfg, m, id, packet, s);
    var chosen := Step(cfg, Step(cfg, m, Packet(packet)), Choose);
    DeliverEnds(cfg, Step(cfg, Step(cfg, chosen, Number), SealIt), id, packet, |m.sessions|, Assign(s).next, accepts);
  }

  lemma ExecSnoc(cfg: Config, hosts: seq<Addr>, evs: seq<Event>, ev: Event)
    ensures Exec(cfg, hosts, evs + [ev]) == Step(cfg, Exec(cfg, hosts, evs), ev)
  {
    assert (evs + [ev])[..|evs|] == evs;
  }

  function AdmitEvents(id: SessionId, key: Bytes): seq<Event> {
    [Hello(id, key), Event.Lease(true)]
  }

  function ReplyEvents(packet: Bytes, accepts: P.AddrPort -> bool): seq<Event> {
    [Packet(packet), Choose, Number, SealIt, Deliver(accepts)]
  }

  lemma ExecAdmit(cfg: Config, hosts: seq<Addr>, evs: seq<Event>, id: SessionId, key: Bytes)
    ensures Exec(cfg, hosts, evs + AdmitEvents(id, key))
         == Step(cfg, Step(cfg, Exec(cfg, hosts, evs), Hello(id, key)), Event.Lease(true))
  {
    hide Step;
    ExecSnoc(cfg, hosts, evs, Hello(id, key));
    ExecSnoc(cfg, hosts, evs + [Hello(id, key)], Event.Lease(true));
    hide Exec;
    assert evs + [Hello(id, key)] + [Event.Lease(true)] == evs + AdmitEvents(id, key);
  }

  lemma ExecReply(cfg: Config, hosts: seq<Addr>, evs: seq<Event>, packet: Bytes, accepts: P.AddrPort -> bool)
    ensures Exec(cfg, hosts, evs + ReplyEvents(packet, accepts)) == Replied(cfg, Exec(cfg, hosts, evs), packet, accepts)
  {
    hide Step, Exec;
    var e1 := evs + [Packet(packet)];
    var e2 := e1 + [Choose];
    var e3 := e2 + [Number];
    var e4 := e3 + [SealIt];
    ExecSnoc(cfg, hosts, evs, Packet(packet));
    ExecSnoc(cfg, hosts, e1, Choose);
    ExecSnoc(cfg, hosts, e2, Number);
    ExecSnoc(cfg, hosts, e3, SealIt);
    ExecSnoc(cfg, hosts, e4, Deliver(accepts));
    assert e4 + [Deliver(accepts)] == evs + ReplyEvents(packet, accepts);
  }

  /** Nothing in progress, and `id` can be admitted. */
  ghost predicate Idle(m: Machine, id: SessionId) {
    && m.recv == Ready && m.ret == Waiting && id !in m.keys && id !in m.cache && LeaseFor(m.leases, id).Some?
  }

  /** Admission alone. */
  lemma OneAdmission(cfg: Config, hosts: seq<Addr>, evs: seq<Event>, id: SessionId, key: Bytes) returns (evs': seq<Event>)
    requires Idle(Exec(cfg, hosts, evs), id)
    ensures |evs'| == |evs| + 2
    ensures var m := Exec(cfg, hosts, evs);
            Exec(cfg, hosts, evs') == m.(keys := m.keys[id := key], used := m.used + {key}, leases := AllocateIn(m.leases, id))
  {
    evs' := evs + AdmitEvents(id, key);
    ExecAdmit(cfg, hosts, evs, id, key);
    Admit(cfg, Exec(cfg, hosts, evs), id, key);
  }

  /** One reply, from an admitted id that has no session yet. */
  lemma OneReply(cfg: Config, hosts: seq<Addr>, evs: seq<Event>, id: SessionId, packet: Bytes, accepts: P.AddrPort -> bool, s: Session)
    returns (evs': seq<Event>)
    requires var m := Exec(cfg, hosts, evs);
             && m.ret == Waiting && id in m.keys && id !in m.cache && LeasedBack(m, id, packet)
             && New(id, m.keys[id], Responder, cfg.capacity) == Ok(s) && |packet| <= MAX_PAYLOAD
    ensures |evs'| == |evs| + 5 && RepliedOnce(cfg, Exec(cfg, hosts, evs), Exec(cfg, hosts, evs'), id, packet, accepts, s)
  {
    evs' := evs + ReplyEvents(packet, accepts);
    hide Exec, Step, New, LeasedBack, RepliedOnce;
    ExecReply(cfg, hosts, evs, packet, accepts);
    ReplySeals(cfg, Exec(cfg, hosts, evs), id, packet, accepts, s);
  }

  lemma OneForget(cfg: Config, hosts: seq<Addr>, evs: seq<Event>, id: SessionId) returns (evs': seq<Event>)
    ensures |evs'| == |evs| + 1
    ensures var m := Exec(cfg, hosts, evs);
            Exec(cfg, hosts, evs')
            == m.(keys := m.keys - {id}, cache := m.cache - {id}, forgotten := m.forgotten + multiset{id})
  {
    evs' := evs + [Forget(id)];
    ExecSnoc(cfg, hosts, evs, Forget(id));
  }

  /** Short runs are within budget. */
  lemma {:induction false} TakenAtMost(cfg: Config, hosts: seq<Addr>, evs: seq<Event>, i: nat)
    ensures Safety.Taken(cfg, hosts, evs, i) <= |evs|
  {
    hide Exec, Safety.Takes;
    if evs != [] {
      TakenAtMost(cfg, hosts, evs[..|evs| - 1], i);
    }
  }

  lemma ShortRunReaches(cfg: Config, a: Addr, evs: seq<Event>)
    requires |evs| < TWO_64 && cfg.pool == {a}
    ensures Safety.Reachable(cfg, Exec(cfg, [a], evs))
  {
    hide Exec, Safety.Taken;
    forall i: nat ensures Safety.Taken(cfg, [a], evs, i) < TWO_64 {
      TakenAtMost(cfg, [a], evs, i);
    }
    assert Elements([a]) == {a};
    assert Safety.Pool(cfg, [a]) && Safety.InBudget(cfg, [a], evs);
  }

  // ---- Nonce reuse -----------------------------------------------------------------------------

  /** What follows when a session is forgotten and its id comes back with the same key: both
      incarnations seal their first reply under that key with the same nonce. */
  lemma SameKeyAgainReuses(cfg: Config, id: SessionId, key: Bytes, a: Addr, packet: Bytes, accepts: P.AddrPort -> bool)
    returns (evs: seq<Event>)
    requires !IsZero(id) && |key| == KEY_SIZE && cfg.capacity > 0 && cfg.pool == {a}
    requires ParseIPv4(packet).Some? && ParseIPv4(packet).value.dst == a && |packet| <= MAX_PAYLOAD
    ensures Safety.Reachable(cfg, Exec(cfg, [a], evs)) && Nonces.Reuses(cfg, Exec(cfg, [a], evs), 0, 1)
  {
    hide ParseIPv4, Copies, PacketWire, P.FreshIn, LeaseFor, AllocateIn, Exec;
    FirstLease(id, a);
    Began(cfg, a);
    var s := New(id, key, Responder, cfg.capacity).value;
    evs := OneAdmission(cfg, [a], [], id, key);
    evs := OneReply(cfg, [a], evs, id, packet, accepts, s);
    evs := OneForget(cfg, [a], evs, id);
    evs := OneAdmission(cfg, [a], evs, id, key);
    evs := OneReply(cfg, [a], evs, id, packet, accepts, s);
    ShortRunReaches(cfg, a, evs);
  }

  // ---- A client's first packet -----------------------------------------------------------------

  /** The client's end of the session of `id`. */
  function Client(id: SessionId, key: Bytes): Session {
    Session(id, Initiator, key, 0, Replay.Fresh(64))
  }

  function FirstWire(cfg: Config, id: SessionId, key: Bytes, payload: Bytes): Bytes {
    PacketWire(cfg.enc, Client(id, key), 1, payload)
  }

  function FirstBox(cfg: Config, id: SessionId, key: Bytes, payload: Bytes): Box {
    PacketBox(cfg.enc, Client(id, key), 1, payload)
  }

  /** What the gateway notes of it, as session `i`. */
  function FirstAuth(cfg: Config, m: Machine, i: nat, id: SessionId, key: Bytes, payload: Bytes, src: P.AddrPort): Auth {
    Auth(i, id, 1, payload, Some(src), FirstBox(cfg, id, key, payload), m.clock)
  }

  lemma FirstIsBoxed(cfg: Config, s: Session, id: SessionId, key: Bytes, payload: Bytes)
    requires s.key == key && !IsZero(id)
    ensures var wire := FirstWire(cfg, id, key, payload);
            && |wire| >= DATA_HEADER_SIZE && WireBox(s, wire, 1) == FirstBox(cfg, id, key, payload)
            && ParseHeader(wire).Ok? && ParseHeader(wire).value.id.session == id
  {
    var h := PacketHeader(Client(id, key), 1);
    var ct := FirstBox(cfg, id, key, payload).ct;
    ParseFramed(h, ct);
    var wire := HeaderBytes(h) + ct;
    assert wire[..DATA_HEADER_SIZE] == HeaderBytes(h) && wire[DATA_HEADER_SIZE..] == ct;
  }

  /** Opened and judged by a new session that is already resolved. */
  lemma FirstOpened(cfg: Config, m: Machine, id: SessionId, key: Bytes, payload: Bytes, src: P.AddrPort, s: Session)
    requires Refines.Pointed(m.cache, m.sessions) && id in m.cache && m.sessions[m.cache[id]] == s
    requires New(id, key, Responder, cfg.capacity) == Ok(s) && !IsZero(id)
    requires m.recv == Resolved(m.cache[id], FirstWire(cfg, id, key, payload), Some(src))
    requires var box := FirstBox(cfg, id, key, payload); box in m.vault && m.vault[box] == payload
    ensures Step(cfg, Step(cfg, m, Open), Judge)
         == m.(sessions := m.sessions[m.cache[id] := Observe(s, 1)], firsts := m.firsts + [|m.auths|],
               auths := m.auths + [FirstAuth(cfg, m, m.cache[id], id, key, payload, src)], recv := Judged(|m.auths|, true))
  {
    hide Step, Authenticate, ParseHeader, New, Observe, Replay.Decide, FirstWire, FirstBox, WireBox;
    var wire := FirstWire(cfg, id, key, payload);
    FirstIsBoxed(cfg, s, id, key, payload) by {
      NewIs(id, key, cfg.capacity, s);
    }
    FirstAuthenticates(cfg, m.vault, id, key, payload, s);
    Refines.OpenJudge(cfg, m, id, wire, Some(src));
  }

  lemma NewIs(id: SessionId, key: Bytes, capacity: int, s: Session)
    requires New(id, key, Responder, capacity) == Ok(s)
    ensures s.id == id && s.key == key && s.role == Responder && Replay.Decide(s.window, 1) == Replay.FirstCopy
  {
  }

  lemma FirstAuthenticates(cfg: Config, vault: Vault, id: SessionId, key: Bytes, payload: Bytes, s: Session)
    requires New(id, key, Responder, cfg.capacity) == Ok(s) && !IsZero(id)
    requires var box := FirstBox(cfg, id, key, payload); box in vault && vault[box] == payload
    ensures Authenticate(vault, s, FirstWire(cfg, id, key, payload)) == Ok(Plain(1, payload))
    ensures Replay.Decide(s.window, 1) == Replay.FirstCopy
  {
    hide Authenticate, New, PacketWire, PacketBox;
    NewIs(id, key, cfg.capacity, s);
    WireAuthenticates(cfg.enc, vault, Client(id, key), s, 1, payload);
  }

  /** Resolved, opened and judged by a session that is built for it. */
  lemma FirstJudged(cfg: Config, m: Machine, id: SessionId, key: Bytes, payload: Bytes, src: P.AddrPort, s: Session)
    requires m.recv == Ready && Refines.Pointed(m.cache, m.sessions) && id in m.keys && m.keys[id] == key && id !in m.cache
    requires New(id, key, Responder, cfg.capacity) == Ok(s) && !IsZero(id)
    requires var box := FirstBox(cfg, id, key, payload); box in m.vault && m.vault[box] == payload
    ensures var m' := Refines.Taken(cfg, m, FirstWire(cfg, id, key, payload), Some(src));
            && m'.sessions == m.sessions + [Observe(s, 1)] && m'.cache == m.cache[id := |m.sessions|]
            && m'.auths == m.auths + [FirstAuth(cfg, m, |m.sessions|, id, key, payload, src)]
            && m' == m.(cache := m'.cache, sessions := m'.sessions, born := m'.born, auths := m'.auths,
                        firsts := m.firsts + [|m.auths|], recv := Judged(|m.auths|, true))
  {
    var wire := FirstWire(cfg, id, key, payload);
    FirstIsBoxed(cfg, s, id, key, payload);
    hide Step, ParseHeader, New, Observe, FirstWire, FirstBox, Refines.Pointed;
    FirstFound(cfg, m, wire, Some(src), id, s);
    FirstOpened(cfg, Step(cfg, m, Datagram(wire, Some(src))), id, key, payload, src, s);
  }

  lemma FirstFound(cfg: Config, m: Machine, wire: Bytes, src: Option<P.AddrPort>, id: SessionId, s: Session)
    requires m.recv == Ready && Refines.Pointed(m.cache, m.sessions) && id in m.keys && id !in m.cache
    requires New(id, m.keys[id], Responder, cfg.capacity) == Ok(s)
    requires ParseHeader(wire).Ok? && ParseHeader(wire).value.id.session == id
    ensures var m' := Step(cfg, m, Datagram(wire, src));
            && m' == m.(cache := m.cache[id := |m.sessions|], sessions := m.sessions + [s], born := m.born + [m.forgotten[id]],
                        recv := Resolved(|m.sessions|, wire, src))
            && Refines.Pointed(m'.cache, m'.sessions)
  {
    hide ParseHeader;
  }

  function ArriveEvents(box: Box, payload: Bytes, wire: Bytes, src: P.AddrPort, ok: bool): seq<Event> {
    [Outside(box, payload), Datagram(wire, Some(src)), Open, Judge, Note, LetOut(ok)]
  }

  /** The machine after those events. */
  function Arrived(cfg: Config, m: Machine, box: Box, payload: Bytes, wire: Bytes, src: P.AddrPort, ok: bool): Machine {
    Step(cfg, Step(cfg, Refines.Taken(cfg, Step(cfg, m, Outside(box, payload)), wire, Some(src)), Note), LetOut(ok))
  }

  lemma ExecArrive(cfg: Config, hosts: seq<Addr>, evs: seq<Event>, box: Box, payload: Bytes, wire: Bytes, src: P.AddrPort, ok: bool)
    ensures Exec(cfg, hosts, evs + ArriveEvents(box, payload, wire, src, ok))
         == Arrived(cfg, Exec(cfg, hosts, evs), box, payload, wire, src, ok)
  {
    hide Step, Exec;
    var e1 := evs + [Outside(box, payload)];
    var e2 := e1 + [Datagram(wire, Some(src))];
    var e3 := e2 + [Open];
    var e4 := e3 + [Judge];
    var e5 := e4 + [Note];
    ExecSnoc(cfg, hosts, evs, Outside(box, payload));
    ExecSnoc(cfg, hosts, e1, Datagram(wire, Some(src)));
    ExecSnoc(cfg, hosts, e2, Open);
    ExecSnoc(cfg, hosts, e3, Judge);
    ExecSnoc(cfg, hosts, e4, Note);
    ExecSnoc(cfg, hosts, e5, LetOut(ok));
    assert e5 + [LetOut(ok)] == evs + ArriveEvents(box, payload, wire, src, ok);
  }

  /** `m'` follows from `m` by the arrival of a client's first packet, at a session built for it. */
  ghost predicate ArrivedOnce(cfg: Config, m: Machine, m': Machine, id: SessionId, key: Bytes, payload: Bytes, src: P.AddrPort, ok: bool, s: Session) {
    && m'.recv == Ready && m'.ret == m.ret && m'.keys == m.keys && m'.leases == m.leases && m'.clock == m.clock
    && m'.seals == m.seals && m'.sends == m.sends && m'.forgotten == m.forgotten
    && m'.sessions == m.sessions + [Observe(s, 1)] && m'.cache == m.cache[id := |m.sessions|]
    && m'.auths == m.auths + [FirstAuth(cfg, m, |m.sessions|, id, key, payload, src)]
    && m'.firsts == m.firsts + [|m.auths|] && m'.paths == P.RecordState(m.paths, id, src, m.clock)
    && m'.tun == m.tun + (if ok && Filter(m.leases, id, payload) == Forward then [Tun(|m.firsts|, payload)] else [])
    && var box := FirstBox(cfg, id, key, payload); box in m'.vault && m'.vault[box] == payload
  }

  lemma OutsideSeals(cfg: Config, m: Machine, box: Box, plain: Bytes)
    requires box in m.vault ==> m.vault[box] == plain
    ensures var m' := Step(cfg, m, Outside(box, plain)); m' == m.(vault := m'.vault) && box in m'.vault && m'.vault[box] == plain
  {
  }

  lemma FirstArrives(cfg: Config, m: Machine, id: SessionId, key: Bytes, payload: Bytes, src: P.AddrPort, ok: bool, s: Session)
    requires m.recv == Ready && Refines.Pointed(m.cache, m.sessions) && id in m.keys && m.keys[id] == key && id !in m.cache
    requires New(id, key, Responder, cfg.capacity) == Ok(s) && !IsZero(id)
    requires var box := FirstBox(cfg, id, key, payload); box in m.vault ==> m.vault[box] == payload
    ensures ArrivedOnce(cfg, m, Arrived(cfg, m, FirstBox(cfg, id, key, payload), payload, FirstWire(cfg, id, key, payload), src, ok),
                        id, key, payload, src, ok, s)
  {
    hide Step, New, FirstBox, FirstWire, Observe, Filter, P.RecordState, Refines.Taken, Refines.Pointed;
    var box := FirstBox(cfg, id, key, payload);
    var m0 := Step(cfg, m, Outside(box, payload));
    OutsideSeals(cfg, m, box, payload);
    FirstJudged(cfg, m0, id, key, payload, src, s);
    Refines.OnwardIsSteps(cfg, Refines.Taken(cfg, m0, FirstWire(cfg, id, key, payload), Some(src)), |m.auths|, true, ok);
  }

  lemma OneArrival(cfg: Config, hosts: seq<Addr>, evs: seq<Event>, id: SessionId, key: Bytes, payload: Bytes, src: P.AddrPort, ok: bool, s: Session)
    returns (evs': seq<Event>)
    requires var m := Exec(cfg, hosts, evs);
             && m.recv == Ready && Refines.Pointed(m.cache, m.sessions) && id in m.keys && m.keys[id] == key && id !in m.cache
             && var box := FirstBox(cfg, id, key, payload); box in m.vault ==> m.vault[box] == payload
    requires New(id, key, Responder, cfg.capacity) == Ok(s) && !IsZero(id)
    ensures |evs'| == |evs| + 6
    ensures ArrivedOnce(cfg, Exec(cfg, hosts, evs), Exec(cfg, hosts, evs'), id, key, payload, src, ok, s)
  {
    var box, wire := FirstBox(cfg, id, key, payload), FirstWire(cfg, id, key, payload);
    evs' := evs + ArriveEvents(box, payload, wire, src, ok);
    hide Exec, Step, New, ArrivedOnce, Arrived, Refines.Pointed;
    ExecArrive(cfg, hosts, evs, box, payload, wire, src, ok);
    FirstArrives(cfg, Exec(cfg, hosts, evs), id, key, payload, src, ok, s);
  }

  // ---- A first life ----------------------------------------------------------------------------

  /** An id was admitted, sent one packet and was forgotten; its lease and its endpoint remain. */
  ghost predicate OneLife(cfg: Config, m: Machine, id: SessionId, key: Bytes, a: Addr, payload: Bytes, src: P.AddrPort, ok: bool) {
    && m.recv == Ready && m.ret == Waiting && m.keys == map[] && m.cache == map[] && m.clock == 0
    && m.leases == Leases(map[id := a], map[a := id], []) && |m.sessions| == 1 && m.seals == [] && m.sends == []
    && |m.auths| == 1 && m.auths[0].inst == 0 && m.auths[0].box == FirstBox(cfg, id, key, payload) && m.auths[0].src == Some(src)
    && m.firsts == [0] && m.paths == P.RecordState(map[], id, src, 0)
    && m.tun == (if ok && Filter(m.leases, id, payload) == Forward then [Tun(0, payload)] else [])
    && var box := FirstBox(cfg, id, key, payload); box in m.vault && m.vault[box] == payload
  }

  lemma Began(cfg: Config, a: Addr)
    ensures Exec(cfg, [a], []) == Start([a])
  {
  }

  lemma FirstLease(id: SessionId, a: Addr)
    ensures LeaseFor(NoLeases([a]), id).Some? && AllocateIn(NoLeases([a]), id) == Leases(map[id := a], map[a := id], [])
    ensures var l := Leases(map[id := a], map[a := id], []); LeaseFor(l, id) == Some(a) && AllocateIn(l, id) == l
  {
  }

  lemma FirstLife(cfg: Config, id: SessionId, key: Bytes, a: Addr, payload: Bytes, src: P.AddrPort, ok: bool) returns (evs: seq<Event>)
    requires !IsZero(id) && |key| == KEY_SIZE && cfg.capacity > 0
    ensures |evs| == 9 && OneLife(cfg, Exec(cfg, [a], evs), id, key, a, payload, src, ok)
  {
    var s := New(id, key, Responder, cfg.capacity).value;
    assert Exec(cfg, [a], []) == Start([a]);
    FirstLease(id, a);
    hide Exec, New, FirstBox, Filter, P.RecordState, LeaseFor, AllocateIn, Observe, Refines.Taken;
    evs := OneAdmission(cfg, [a], [], id, key);
    evs := OneArrival(cfg, [a], evs, id, key, payload, src, ok, s);
    evs := OneForget(cfg, [a], evs, id);
  }

  // ---- Replay after the key returns ------------------------------------------------------------

  /** What follows for the tunnel: the client's first datagram, replayed, enters it a second time. */
  lemma SameKeyAgainReplays(cfg: Config, id: SessionId, key: Bytes, a: Addr, payload: Bytes, src: P.AddrPort) returns (evs: seq<Event>)
    requires !IsZero(id) && |key| == KEY_SIZE && cfg.capacity > 0 && cfg.pool == {a}
    requires ParseIPv4(payload).Some? && ParseIPv4(payload).value.src == a
    ensures var m := Exec(cfg, [a], evs);
            && Safety.Reachable(cfg, m) && m.tun == [Tun(0, payload), Tun(1, payload)] && m.firsts == [0, 1]
            && |m.auths| == 2 && m.auths[0].box == m.auths[1].box && m.auths[0].inst != m.auths[1].inst
  {
    hide ParseIPv4;
    var s := New(id, key, Responder, cfg.capacity).value;
    assert Filter(Leases(map[id := a], map[a := id], []), id, payload) == Forward;
    FirstLease(id, a);
    hide Exec, New, FirstBox, Filter, P.RecordState, LeaseFor, AllocateIn, Observe, Refines.Taken;
    evs := FirstLife(cfg, id, key, a, payload, src, true);
    evs := OneAdmission(cfg, [a], evs, id, key);
    evs := OneArrival(cfg, [a], evs, id, key, payload, src, true, s);
    ShortRunReaches(cfg, a, evs);
  }

  // ---- Endpoints outlive sessions --------------------------------------------------------------

  lemma FreshAlone(id: SessionId, src: P.AddrPort, ttl: int)
    requires ttl > 0
    ensures P.FreshIn(P.RecordState(map[], id, src, 0), id, 0 - ttl) == [src]
  {
    var es := [P.Entry(src, 0)];
    assert P.RecordState(map[], id, src, 0) == map[id := es];
    assert es[..0] == [] && P.LiveIn(es, 0 - ttl) == es;
  }

  lemma OnlyCopy(s: Send, src: P.AddrPort, accepts: P.AddrPort -> bool)
    requires accepts(src)
    ensures Copies(s, [src], accepts) == [s.(to := src)]
  {
    assert [src][..0] == [];
  }

  /** The only endpoint of the first life, and an id admitted since. */
  ghost predicate Back(m: Machine, id: SessionId, key: Bytes, a: Addr, src: P.AddrPort) {
    && m.recv == Ready && m.ret == Waiting && m.keys == map[id := key] && m.cache == map[] && m.clock == 0
    && m.leases == Leases(map[id := a], map[a := id], []) && |m.sessions| == 1 && m.sends == []
    && |m.auths| == 1 && m.auths[0].inst == 0 && m.auths[0].src == Some(src) && m.paths == P.RecordState(map[], id, src, 0)
  }

  lemma SecondAdmission(cfg: Config, id: SessionId, key: Bytes, key': Bytes, a: Addr, payload: Bytes, src: P.AddrPort)
    returns (evs: seq<Event>)
    requires !IsZero(id) && |key| == KEY_SIZE && cfg.capacity > 0
    ensures |evs| == 11 && Back(Exec(cfg, [a], evs), id, key', a, src)
  {
    FirstLease(id, a);
    hide Exec, FirstBox, Filter, P.RecordState, LeaseFor, AllocateIn;
    evs := FirstLife(cfg, id, key, a, payload, src, false);
    evs := OneAdmission(cfg, [a], evs, id, key');
  }

  /** One reply goes to that endpoint. */
  lemma RepliedThere(cfg: Config, m: Machine, m': Machine, id: SessionId, key: Bytes, a: Addr, src: P.AddrPort, packet: Bytes,
                     accepts: P.AddrPort -> bool, s: Session)
    requires Back(m, id, key, a, src) && RepliedOnce(cfg, m, m', id, packet, accepts, s) && cfg.ttl > 0 && accepts(src)
    ensures |m'.sends| == 1 && m'.sends[0].to == src && m'.sends[0].inst == 1 && m'.auths == m.auths
  {
    FreshAlone(id, src, cfg.ttl);
    hide P.RecordState, P.FreshIn, Copies, PacketWire, Assign;
    var n := Assign(s).next;
    OnlyCopy(Send(id, 1, n, packet, PacketWire(cfg.enc, Assign(s), n, packet), P.AddrPort([], 0), 0), src, accepts);
  }

  /** An id that is forgotten and comes back under another key is answered at the endpoint that only its
      earlier session had heard from. */
  lemma EndpointOutlivesSession(cfg: Config, id: SessionId, key: Bytes, key': Bytes, a: Addr, payload: Bytes, packet: Bytes,
                                src: P.AddrPort, accepts: P.AddrPort -> bool)
    returns (evs: seq<Event>)
    requires !IsZero(id) && |key| == KEY_SIZE && |key'| == KEY_SIZE && cfg.capacity > 0 && cfg.pool == {a} && cfg.ttl > 0
    requires ParseIPv4(packet).Some? && ParseIPv4(packet).value.dst == a && |packet| <= MAX_PAYLOAD && accepts(src)
    ensures var m := Exec(cfg, [a], evs);
            && Safety.Reachable(cfg, m) && |m.sends| == 1 && m.sends[0].to == src && m.sends[0].inst == 1
            && |m.auths| == 1 && m.auths[0].inst == 0 && m.auths[0].src == Some(src)
  {
    hide ParseIPv4;
    var s := New(id, key', Responder, cfg.capacity).value;
    hide Exec, New, P.RecordState, Assign, RepliedOnce, Safety.Reachable;
    evs := SecondAdmission(cfg, id, key, key', a, payload, src);
    var evs' := OneReply(cfg, [a], evs, id, packet, accepts, s);
    RepliedThere(cfg, Exec(cfg, [a], evs), Exec(cfg, [a], evs'), id, key', a, src, packet, accepts, s);
    evs := evs';
    ShortRunReaches(cfg, a, evs);
  }

  // ---- An answer that cannot be encoded --------------------------------------------------------

  /** A session built between a registration and its unwinding stays cached. */
  lemma BuiltThenUnwound(cfg: Config, m: Machine, id: SessionId, key: Bytes, packet: Bytes, s: Session)
    requires Idle(m, id) && LeasedBack(m, id, packet) && New(id, key, Responder, cfg.capacity) == Ok(s)
    ensures var built := Step(cfg, Step(cfg, Step(cfg, m, Hello(id, key)), Packet(packet)), Choose);
            var m' := Step(cfg, Step(cfg, built, Event.Lease(false)), Unwind);
            id in m'.cache && id !in m'.keys
  {
    var m1 := Step(cfg, m, Hello(id, key));
    assert m1 == m.(keys := m.keys[id := key], used := m.used + {key}, recv := Registered(id));
    hide New, LeaseFor, AllocateIn, LeasedBack;
    assert LeasedBack(m1, id, packet) by {
      assert LeasedBack(m, id, packet);
    }
    ReplyChosen(cfg, m1, id, packet, s);
  }

  /** An id that comes back after a forget, and whose answer then cannot be encoded, is left with a
      session but without a key, if a packet for its address arrives in between. */
  lemma UnanswerableOrphans(cfg: Config, id: SessionId, key: Bytes, key': Bytes, a: Addr, packet: Bytes) returns (evs: seq<Event>)
    requires !IsZero(id) && |key'| == KEY_SIZE && cfg.capacity > 0 && cfg.pool == {a}
    requires ParseIPv4(packet).Some? && ParseIPv4(packet).value.dst == a
    ensures var m := Exec(cfg, [a], evs); Safety.Reachable(cfg, m) && id in m.cache && id !in m.keys
  {
    hide ParseIPv4;
    var s := New(id, key', Responder, cfg.capacity).value;
    assert Exec(cfg, [a], []) == Start([a]);
    FirstLease(id, a);
    hide Exec, New, LeaseFor, AllocateIn, Step;
    evs := OneAdmission(cfg, [a], [], id, key);
    evs := OneForget(cfg, [a], evs, id);
    BuiltThenUnwound(cfg, Exec(cfg, [a], evs), id, key', packet, s);
    ExecSnoc(cfg, [a], evs, Hello(id, key'));
    evs := evs + [Hello(id, key')];
    ExecSnoc(cfg, [a], evs, Packet(packet));
    evs := evs + [Packet(packet)];
    ExecSnoc(cfg, [a], evs, Choose);
    evs := evs + [Choose];
    ExecSnoc(cfg, [a], evs, Event.Lease(false));
    evs := evs + [Event.Lease(false)];
    ExecSnoc(cfg, [a], evs, Unwind);
    evs := evs + [Unwind];
    ShortRunReaches(cfg, a, evs);
  }
}
