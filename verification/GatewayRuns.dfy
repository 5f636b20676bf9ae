/** Every run of the gateway's two loops. The receive loop and the return loop interleave with each
    other, with sessions being forgotten and with whatever the network and the clients do, one atomic
    action at a time: an action is what one lock covers. */
module GatewayRuns {
  import opened Basics
  import opened DataWire
  import opened SessionSpec
  import opened GatewaySpec
  import opened Allocators
  import P = PathSets
  import Replay = ReplaySpec

  datatype Config = Config(enc: Cipher, capacity: int, ttl: int, pool: set<Addr>)

  // ---- State -----------------------------------------------------------------------------------

  /** Where the receive loop stands. Numbers index the histories below. */
  datatype Receiving =
    | Ready
    | Registered(id: SessionId)                        // key stored, no lease asked for yet
    | Refusing(id: SessionId)                          // no lease or no answer, key not removed yet
    | Resolved(inst: nat, wire: Bytes, src: Option<P.AddrPort>)
    | Opened(auth: nat)                                // authenticated, window not asked yet
    | Judged(auth: nat, first: bool)                   // window asked, path not recorded yet
    | Leaving                                          // the latest first copy may go out

  /** Where the return loop stands. */
  datatype Returning =
    | Waiting
    | Looked(id: SessionId, packet: Bytes)             // destination looked up
    | Chosen(id: SessionId, packet: Bytes, inst: nat)  // session resolved
    | Numbered(id: SessionId, packet: Bytes, inst: nat, number: U64)
    | Sealed(id: SessionId, packet: Bytes, inst: nat, number: U64)

  /** An authenticated arrival at responder session `inst`, and when it was opened. */
  datatype Auth = Auth(
    inst: nat, id: SessionId, number: U64, payload: Bytes, src: Option<P.AddrPort>, box: Box, at: P.Time)

  /** The datagram of an arrival: associated data, then ciphertext. */
  function WireOf(a: Auth): Bytes {
    a.box.aad + a.box.ct
  }

  datatype Tun = Tun(first: nat, packet: Bytes)

  datatype Seal = Seal(inst: nat, number: U64, packet: Bytes)

  datatype Send = Send(id: SessionId, inst: nat, number: U64, packet: Bytes, datagram: Bytes, to: P.AddrPort, at: P.Time)

  /** The gateway's tables, both loops, and the history of the run. `sessions` holds every responder
      session ever built; `cache` points into it. `firsts` points into `auths`, `tun` into `firsts`.
      `forgotten` counts how often each id was forgotten, `born` how often that was when each session
      was built. `noted` says of each entry in `notes` which arrival it records. */
  datatype Machine = Machine(
    keys: Keys, cache: map<SessionId, nat>, sessions: seq<Session>, leases: Leases, paths: P.Paths,
    vault: Vault, clock: P.Time, recv: Receiving, ret: Returning,
    used: set<Bytes>, auths: seq<Auth>, firsts: seq<nat>, tun: seq<Tun>, seals: seq<Seal>, sends: seq<Send>,
    notes: seq<P.Event>, noted: seq<nat>, born: seq<nat>, forgotten: multiset<SessionId>)

  datatype Event =
    | Tick(now: P.Time)
    | Hello(id: SessionId, key: Bytes) | Lease(fits: bool) | Unwind
    | Datagram(wire: Bytes, src: Option<P.AddrPort>) | Open | Judge | Note | LetOut(ok: bool)
    | Packet(packet: Bytes) | Choose | Number | SealIt | Deliver(accepts: P.AddrPort -> bool)
    | Forget(id: SessionId)
    | Outside(box: Box, plain: Bytes)

  function Start(hosts: seq<Addr>): Machine {
    Machine(map[], map[], [], NoLeases(hosts), map[], map[], 0, Ready, Waiting, {}, [], [], [], [], [], [],
            [], [], multiset{})
  }

  // ---- Actions of the receive loop -------------------------------------------------------------

  function DoHello(m: Machine, id: SessionId, key: Bytes): Machine {
    if m.recv != Ready || id in m.keys then m
    else m.(keys := m.keys[id := key], used := m.used + {key}, recv := Registered(id))
  }

  /** Asks for an address; `fits` is whether the answer can then be encoded. */
  function DoLease(m: Machine, fits: bool): Machine {
    if !m.recv.Registered? then m
    else if LeaseFor(m.leases, m.recv.id).None? then m.(recv := Refusing(m.recv.id))
    else m.(leases := AllocateIn(m.leases, m.recv.id), recv := if fits then Ready else Refusing(m.recv.id))
  }

  function DoUnwind(m: Machine): Machine {
    if !m.recv.Refusing? then m else m.(keys := m.keys - {m.recv.id}, recv := Ready)
  }

  /** Finds or builds the session of `id`; the result is its index, if there is one. */
  function Find(cfg: Config, m: Machine, id: SessionId): (Machine, Option<nat>) {
    if id in m.cache then (m, Some(m.cache[id]))
    else if id !in m.keys then (m, None)
    else match New(id, m.keys[id], Responder, cfg.capacity)
         case Err(_) => (m, None)
         case Ok(s) =>
           (m.(cache := m.cache[id := |m.sessions|], sessions := m.sessions + [s], born := m.born + [m.forgotten[id]]),
            Some(|m.sessions|))
  }

  function DoDatagram(cfg: Config, m: Machine, wire: Bytes, src: Option<P.AddrPort>): Machine {
    if m.recv != Ready || ParseHeader(wire).Err? then m
    else
      var (m', i) := Find(cfg, m, ParseHeader(wire).value.id.session);
      if i.None? then m' else m'.(recv := Resolved(i.value, wire, src))
  }

  function WireBox(s: Session, wire: Bytes, n: U64): Box
    requires |wire| >= DATA_HEADER_SIZE
  {
    Box(s.key, Nonce(ToGateway, n), wire[..DATA_HEADER_SIZE], wire[DATA_HEADER_SIZE..])
  }

  function DoOpen(m: Machine): Machine {
    if !m.recv.Resolved? || m.recv.inst >= |m.sessions| || |m.recv.wire| < DATA_HEADER_SIZE then m
    else
      var s := m.sessions[m.recv.inst];
      match Authenticate(m.vault, s, m.recv.wire)
      case Err(_) => m.(recv := Ready)
      case Ok(p) =>
        var a := Auth(m.recv.inst, s.id, p.number, p.payload, m.recv.src, WireBox(s, m.recv.wire, p.number), m.clock);
        m.(auths := m.auths + [a], recv := Opened(|m.auths|))
  }

  function DoJudge(m: Machine): Machine {
    if !m.recv.Opened? || m.recv.auth >= |m.auths| || m.auths[m.recv.auth].inst >= |m.sessions| then m
    else
      var k := m.recv.auth;
      var a := m.auths[k];
      var s := m.sessions[a.inst];
      var first := Replay.Decide(s.window, a.number) == Replay.FirstCopy;
      m.(sessions := m.sessions[a.inst := Observe(s, a.number)],
         firsts := if first then m.firsts + [k] else m.firsts,
         recv := Judged(k, first))
  }

  function DoNote(m: Machine): Machine {
    if !m.recv.Judged? || m.recv.auth >= |m.auths| then m
    else
      var a := m.auths[m.recv.auth];
      var next := if m.recv.first then Leaving else Ready;
      if a.src.None? then m.(recv := next)
      else m.(paths := P.RecordState(m.paths, a.id, a.src.value, m.clock),
              notes := m.notes + [P.Seen(a.id, a.src.value, m.clock)],
              noted := m.noted + [m.recv.auth], recv := next)
  }

  function DoLetOut(m: Machine, ok: bool): Machine {
    if m.recv != Leaving || m.firsts == [] || m.firsts[|m.firsts| - 1] >= |m.auths| then m
    else
      var a := m.auths[m.firsts[|m.firsts| - 1]];
      if ok && Filter(m.leases, a.id, a.payload) == Forward
      then m.(tun := m.tun + [Tun(|m.firsts| - 1, a.payload)], recv := Ready)
      else m.(recv := Ready)
  }

  // ---- Actions of the return loop --------------------------------------------------------------

  function DoPacket(m: Machine, packet: Bytes): Machine {
    if m.ret != Waiting then m
    else match ParseIPv4(packet)
         case None => m
         case Some(inner) =>
           if inner.dst !in m.leases.reverse then m else m.(ret := Looked(m.leases.reverse[inner.dst], packet))
  }

  function DoChoose(cfg: Config, m: Machine): Machine {
    if !m.ret.Looked? then m
    else
      var (m', i) := Find(cfg, m, m.ret.id);
      m'.(ret := if i.None? then Waiting else Chosen(m.ret.id, m.ret.packet, i.value))
  }

  function DoNumber(m: Machine): Machine {
    if !m.ret.Chosen? || m.ret.inst >= |m.sessions| then m
    else if |m.ret.packet| > MAX_PAYLOAD then m.(ret := Waiting)
    else
      var s := Assign(m.sessions[m.ret.inst]);
      m.(sessions := m.sessions[m.ret.inst := s], ret := Numbered(m.ret.id, m.ret.packet, m.ret.inst, s.next))
  }

  function DoSeal(cfg: Config, m: Machine): Machine {
    if !m.ret.Numbered? || m.ret.inst >= |m.sessions| then m
    else
      var r := m.ret;
      var box := PacketBox(cfg.enc, m.sessions[r.inst], r.number, r.packet);
      m.(vault := m.vault[box := r.packet], seals := m.seals + [Seal(r.inst, r.number, r.packet)],
         ret := Sealed(r.id, r.packet, r.inst, r.number))
  }

  /** The sends of one frame: a copy per fresh endpoint that accepted it. */
  function Copies(s: Send, dsts: seq<P.AddrPort>, accepts: P.AddrPort -> bool): seq<Send> {
    if dsts == [] then []
    else
      var rest, ep := Copies(s, dsts[..|dsts| - 1], accepts), dsts[|dsts| - 1];
      if accepts(ep) then rest + [s.(to := ep)] else rest
  }

  function DoDeliver(cfg: Config, m: Machine, accepts: P.AddrPort -> bool): Machine {
    if !m.ret.Sealed? || m.ret.inst >= |m.sessions| then m
    else
      var r := m.ret;
      var cutoff := m.clock - cfg.ttl;
      var s := Send(r.id, r.inst, r.number, r.packet, PacketWire(cfg.enc, m.sessions[r.inst], r.number, r.packet),
                    P.AddrPort([], 0), m.clock);
      m.(paths := P.PruneState(m.paths, r.id, cutoff), notes := m.notes + [P.Asked(r.id, m.clock)],
         noted := m.noted + [|m.auths|],
         sends := m.sends + Copies(s, P.FreshIn(m.paths, r.id, cutoff), accepts), ret := Waiting)
  }

  // ---- Steps and runs --------------------------------------------------------------------------

  /** One atomic action; one whose moment has not come does nothing. Outsiders may seal any box that
      was not sealed before, under any key. */
  function Step(cfg: Config, m: Machine, ev: Event): Machine {
    match ev
    case Tick(now) => if now < m.clock then m else m.(clock := now)
    case Hello(id, key) => DoHello(m, id, key)
    case Lease(fits) => DoLease(m, fits)
    case Unwind => DoUnwind(m)
    case Datagram(wire, src) => DoDatagram(cfg, m, wire, src)
    case Open => DoOpen(m)
    case Judge => DoJudge(m)
    case Note => DoNote(m)
    case LetOut(ok) => DoLetOut(m, ok)
    case Packet(packet) => DoPacket(m, packet)
    case Choose => DoChoose(cfg, m)
    case Number => DoNumber(m)
    case SealIt => DoSeal(cfg, m)
    case Deliver(accepts) => DoDeliver(cfg, m, accepts)
    case Forget(id) =>
      m.(keys := m.keys - {id}, cache := m.cache - {id}, forgotten := m.forgotten + multiset{id})
    case Outside(box, plain) => if box in m.vault then m else m.(vault := m.vault[box := plain])
  }

  function Exec(cfg: Config, hosts: seq<Addr>, evs: seq<Event>): Machine {
    if evs == [] then Start(hosts)
    else Step(cfg, Exec(cfg, hosts, evs[..|evs| - 1]), evs[|evs| - 1])
  }

  /** The arrival behind packet `t` of the tunnel. */
  function Behind(m: Machine, t: nat): Auth
    requires t < |m.tun| && m.tun[t].first < |m.firsts| && m.firsts[m.tun[t].first] < |m.auths|
  {
    m.auths[m.firsts[m.tun[t].first]]
  }

  /** A handshake is under way. */
  predicate InHandshake(recv: Receiving) {
    recv.Registered? || recv.Refusing?
  }

  // ---- What each action leaves alone -----------------------------------------------------------

  lemma HelloFrame(m: Machine, id: SessionId, key: Bytes)
    ensures var m' := DoHello(m, id, key); m' == m.(keys := m'.keys, used := m'.used, recv := m'.recv)
  {
  }

  lemma LeaseFrame(m: Machine, fits: bool)
    ensures var m' := DoLease(m, fits); m' == m.(leases := m'.leases, recv := m'.recv)
  {
    hide LeaseFor, AllocateIn;
  }

  lemma UnwindFrame(m: Machine)
    ensures var m' := DoUnwind(m); m' == m.(keys := m'.keys, recv := m'.recv)
  {
  }

  lemma FindFrame(cfg: Config, m: Machine, id: SessionId)
    ensures var m' := Find(cfg, m, id).0; m' == m.(cache := m'.cache, sessions := m'.sessions, born := m'.born)
  {
    hide New;
  }

  lemma DatagramFrame(cfg: Config, m: Machine, wire: Bytes, src: Option<P.AddrPort>)
    ensures var m' := DoDatagram(cfg, m, wire, src);
            && m' == m.(cache := m'.cache, sessions := m'.sessions, born := m'.born, recv := m'.recv)
            && (m'.recv == m.recv || !InHandshake(m'.recv))
  {
    hide Find, ParseHeader;
    if ParseHeader(wire).Ok? {
      FindFrame(cfg, m, ParseHeader(wire).value.id.session);
    }
  }

  lemma OpenFrame(m: Machine)
    ensures var m' := DoOpen(m);
            m' == m.(auths := m'.auths, recv := m'.recv) && (m'.recv == m.recv || !InHandshake(m'.recv))
  {
    hide Authenticate, WireBox;
  }

  lemma JudgeFrame(m: Machine)
    ensures var m' := DoJudge(m);
            && m' == m.(sessions := m'.sessions, firsts := m'.firsts, recv := m'.recv)
            && (m'.recv == m.recv || !InHandshake(m'.recv))
  {
    hide Replay.Decide, Observe;
  }

  lemma NoteFrame(m: Machine)
    ensures var m' := DoNote(m);
            && m' == m.(paths := m'.paths, notes := m'.notes, noted := m'.noted, recv := m'.recv)
            && (m'.recv == m.recv || !InHandshake(m'.recv))
  {
    hide P.RecordState;
  }

  lemma LetOutFrame(m: Machine, ok: bool)
    ensures var m' := DoLetOut(m, ok);
            m' == m.(tun := m'.tun, recv := m'.recv) && (m'.recv == m.recv || !InHandshake(m'.recv))
  {
    hide Filter;
  }

  lemma PacketFrame(m: Machine, packet: Bytes)
    ensures var m' := DoPacket(m, packet); m' == m.(ret := m'.ret)
  {
    hide ParseIPv4;
  }

  lemma ChooseFrame(cfg: Config, m: Machine)
    ensures var m' := DoChoose(cfg, m);
            m' == m.(cache := m'.cache, sessions := m'.sessions, born := m'.born, ret := m'.ret)
  {
    hide Find;
    if m.ret.Looked? {
      FindFrame(cfg, m, m.ret.id);
    }
  }

  lemma NumberFrame(m: Machine)
    ensures var m' := DoNumber(m); m' == m.(sessions := m'.sessions, ret := m'.ret)
  {
    hide Assign;
  }

  lemma SealFrame(cfg: Config, m: Machine)
    ensures var m' := DoSeal(cfg, m); m' == m.(vault := m'.vault, seals := m'.seals, ret := m'.ret)
  {
    hide PacketBox;
  }

  lemma DeliverFrame(cfg: Config, m: Machine, accepts: P.AddrPort -> bool)
    ensures var m' := DoDeliver(cfg, m, accepts);
            m' == m.(paths := m'.paths, notes := m'.notes, noted := m'.noted, sends := m'.sends, ret := m'.ret)
  {
    hide Copies, PacketWire, P.PruneState, P.FreshIn;
  }

  /** Data and return traffic never touches the key store or the leases, and forgets nothing. */
  lemma TrafficLeavesKeys(cfg: Config, m: Machine, ev: Event)
    requires !ev.Hello? && !ev.Lease? && !ev.Unwind? && !ev.Forget?
    ensures var m' := Step(cfg, m, ev);
            && m'.keys == m.keys && m'.leases == m.leases && m'.used == m.used && m'.forgotten == m.forgotten
            && (m'.recv == m.recv || !InHandshake(m'.recv))
  {
    hide DoDatagram, DoOpen, DoJudge, DoNote, DoLetOut, DoPacket, DoChoose, DoNumber, DoSeal, DoDeliver;
    match ev
    case Tick(_) =>
    case Datagram(wire, src) => DatagramFrame(cfg, m, wire, src);
    case Open => OpenFrame(m);
    case Judge => JudgeFrame(m);
    case Note => NoteFrame(m);
    case LetOut(ok) => LetOutFrame(m, ok);
    case Packet(packet) => PacketFrame(m, packet);
    case Choose => ChooseFrame(cfg, m);
    case Number => NumberFrame(m);
    case SealIt => SealFrame(cfg, m);
    case Deliver(accepts) => DeliverFrame(cfg, m, accepts);
    case Outside(_, _) =>
  }

  /** Handshakes, clock and bookkeeping never touch a session or the return loop. */
  lemma HandshakesLeaveSessions(cfg: Config, m: Machine, ev: Event)
    requires !ev.Datagram? && !ev.Choose? && !ev.Judge? && !ev.Number? && !ev.SealIt? && !ev.Packet? && !ev.Deliver?
    ensures var m' := Step(cfg, m, ev);
            && m'.sessions == m.sessions && m'.born == m.born && m'.seals == m.seals && m'.ret == m.ret
            && (!ev.Forget? ==> m'.cache == m.cache && m'.forgotten == m.forgotten)
  {
    hide DoHello, DoLease, DoUnwind, DoOpen, DoNote, DoLetOut;
    match ev
    case Tick(_) =>
    case Hello(id, key) => HelloFrame(m, id, key);
    case Lease(fits) => LeaseFrame(m, fits);
    case Unwind => UnwindFrame(m);
    case Open => OpenFrame(m);
    case Note => NoteFrame(m);
    case LetOut(ok) => LetOutFrame(m, ok);
    case Forget(_) =>
    case Outside(_, _) =>
  }
}
