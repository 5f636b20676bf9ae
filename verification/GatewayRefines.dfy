/** The atomic actions of `GatewayRuns`, taken one after the other without interruption, are the calls
    of the gateway objects: the runs that are reasoned about are runs of that code. */
module GatewayRefines {
  import opened Basics
  import opened DataWire
  import opened HelloWire
  import opened SessionSpec
  import opened GatewaySpec
  import opened Allocators
  import opened GatewayRuns
  import opened Routers
  import opened Gateways
  import P = PathSets
  import Replay = ReplaySpec
  import Safety = GatewaySafety

  // ---- The cache, seen through the indices -----------------------------------------------------

  /** Every cached index is that of a session of its id. */
  ghost predicate Pointed(cache: map<SessionId, nat>, sessions: seq<Session>) {
    forall id | id in cache :: cache[id] < |sessions| && sessions[cache[id]].id == id
  }

  ghost function CacheOf(cache: map<SessionId, nat>, sessions: seq<Session>): Cache
    requires Pointed(cache, sessions)
  {
    map id | id in cache :: sessions[cache[id]]
  }

  /** Every reachable state of the runs qualifies. */
  lemma ReachableIsPointed(cfg: Config, m: Machine)
    requires Safety.Reachable(cfg, m)
    ensures Pointed(m.cache, m.sessions)
  {
    Safety.ReachableInv(cfg, m);
  }

  lemma UpdateCached(cache: map<SessionId, nat>, sessions: seq<Session>, id: SessionId, s: Session)
    requires Pointed(cache, sessions) && id in cache && s.id == id
    ensures Pointed(cache, sessions[cache[id] := s])
    ensures CacheOf(cache, sessions[cache[id] := s]) == CacheOf(cache, sessions)[id := s]
  {
  }

  /** Finding a session is resolving it. */
  lemma FindResolves(cfg: Config, m: Machine, id: SessionId)
    requires Pointed(m.cache, m.sessions)
    ensures var (m', i) := Find(cfg, m, id);
            match Resolve(m.keys, cfg.capacity, CacheOf(m.cache, m.sessions), id)
            case Err(_) => m' == m && i == None
            case Ok(s) =>
              && m' == m.(cache := m'.cache, sessions := m'.sessions, born := m'.born) && Pointed(m'.cache, m'.sessions)
              && id in m'.cache && i == Some(m'.cache[id]) && m'.sessions[m'.cache[id]] == s
              && CacheOf(m'.cache, m'.sessions) == CacheOf(m.cache, m.sessions)[id := s]
  {
  }

  // ---- Handshakes ------------------------------------------------------------------------------

  /** The actions of a handshake: none if it fails its checks, else registration, lease and unwinding. */
  function HandshakeTaken(cfg: Config, m: Machine, env: Env, hello: Bytes): Machine {
    match Checked(env, hello)
    case Err(_) => m
    case Ok((id, key, pub)) =>
      var fits := |pub| == EPHEMERAL_SIZE && |env.sign(pub, id)| == SIGNATURE_SIZE;
      Step(cfg, Step(cfg, Step(cfg, m, Hello(id, key)), Event.Lease(fits)), Unwind)
  }

  /** They leave the tables as the handshake does, and everything else alone, whether it is admitted, finds
      its id taken, finds no address left or has an answer that cannot be encoded. */
  lemma HandshakeIsSteps(cfg: Config, m: Machine, env: Env, hello: Bytes)
    requires m.recv == Ready
    ensures var m' := HandshakeTaken(cfg, m, env, hello);
            && Gate(m'.keys, Some(m'.leases)) == Handshake(Gate(m.keys, Some(m.leases)), env, hello).gate
            && m' == m.(keys := m'.keys, leases := m'.leases, used := m'.used)
  {
    hide Checked, LeaseFor, AllocateIn;
    hide DoDatagram, DoOpen, DoJudge, DoNote, DoLetOut, DoPacket, DoChoose, DoNumber, DoSeal, DoDeliver;
    var r := Checked(env, hello);
    if r.Ok? && r.value.0 !in m.keys {
      var id, key := r.value.0, r.value.1;
      assert m.keys[id := key] - {id} == m.keys;
    }
  }

  // ---- Forgetting ------------------------------------------------------------------------------

  /** Forgetting an id takes its key and its cached session, and leaves leases, paths and everything else. */
  lemma ForgetIsStep(cfg: Config, m: Machine, id: SessionId)
    requires Pointed(m.cache, m.sessions)
    ensures var m' := Step(cfg, m, Forget(id));
            && Pointed(m'.cache, m'.sessions) && m'.keys == m.keys - {id}
            && CacheOf(m'.cache, m'.sessions) == CacheOf(m.cache, m.sessions) - {id}
            && m' == m.(keys := m'.keys, cache := m'.cache, forgotten := m'.forgotten)
  {
  }

  // ---- Datagrams -------------------------------------------------------------------------------

  /** Opening and judging: nothing when authentication fails, else the window's decision. */
  lemma OpenJudge(cfg: Config, m: Machine, id: SessionId, wire: Bytes, src: Option<P.AddrPort>)
    requires Pointed(m.cache, m.sessions) && id in m.cache && |wire| >= DATA_HEADER_SIZE
    requires m.recv == Resolved(m.cache[id], wire, src)
    ensures var m', s := Step(cfg, Step(cfg, m, Open), Judge), m.sessions[m.cache[id]];
            match Authenticate(m.vault, s, wire)
            case Err(_) => m' == m.(recv := Ready)
            case Ok(p) =>
              var first := Replay.Decide(s.window, p.number) == Replay.FirstCopy;
              && m' == m.(sessions := m.sessions[m.cache[id] := Observe(s, p.number)], recv := Judged(|m.auths|, first),
                          auths := m'.auths, firsts := if first then m.firsts + [|m.auths|] else m.firsts)
              && |m'.auths| == |m.auths| + 1 && m'.auths[..|m.auths|] == m.auths
              && m'.auths[|m.auths|]
                 == Auth(m.cache[id], id, p.number, p.payload, src, WireBox(s, wire, p.number), m.clock)
  {
    hide Authenticate, Observe, Replay.Decide;
    hide DoHello, DoLease, DoUnwind, DoDatagram, DoNote, DoLetOut, DoPacket, DoChoose, DoNumber, DoSeal, DoDeliver;
    var s := m.sessions[m.cache[id]];
    var opened' := Step(cfg, m, Open);
    match Authenticate(m.vault, s, wire)
    case Err(_) => assert opened' == m.(recv := Ready);
    case Ok(p) =>
      assert opened' == m.(auths := opened'.auths, recv := Opened(|m.auths|));
  }

  /** The three actions on a datagram. */
  function Taken(cfg: Config, m: Machine, wire: Bytes, src: Option<P.AddrPort>): Machine {
    Step(cfg, Step(cfg, Step(cfg, m, Datagram(wire, src)), Open), Judge)
  }

  /** The tables that a datagram leaves alone. */
  ghost predicate SameTables(m: Machine, m': Machine) {
    && m'.keys == m.keys && m'.leases == m.leases && m'.paths == m.paths && m'.vault == m.vault
    && m'.clock == m.clock && m'.tun == m.tun
  }

  lemma DatagramFinds(cfg: Config, m: Machine, wire: Bytes, src: Option<P.AddrPort>, id: SessionId)
    requires m.recv == Ready && Pointed(m.cache, m.sessions)
    requires ParseHeader(wire).Ok? && id == ParseHeader(wire).value.id.session
    ensures |wire| >= DATA_HEADER_SIZE
    ensures var m' := Step(cfg, m, Datagram(wire, src));
            match Resolve(m.keys, cfg.capacity, CacheOf(m.cache, m.sessions), id)
            case Err(_) => m' == m
            case Ok(s) =>
              && Pointed(m'.cache, m'.sessions) && id in m'.cache && m'.sessions[m'.cache[id]] == s
              && m' == m.(cache := m'.cache, sessions := m'.sessions, born := m'.born, recv := Resolved(m'.cache[id], wire, src))
              && CacheOf(m'.cache, m'.sessions) == CacheOf(m.cache, m.sessions)[id := s]
  {
    FindResolves(cfg, m, id);
    hide Find, Resolve, CacheOf, Pointed;
  }

  lemma RejectedIsSteps(cfg: Config, m: Machine, wire: Bytes, src: Option<P.AddrPort>)
    requires m.recv == Ready && Pointed(m.cache, m.sessions)
    requires ParseHeader(wire).Err?
          || Resolve(m.keys, cfg.capacity, CacheOf(m.cache, m.sessions), ParseHeader(wire).value.id.session).Err?
    ensures Taken(cfg, m, wire, src) == m
  {
    hide Step, Resolve, CacheOf, Pointed, ParseHeader;
    if ParseHeader(wire).Ok? {
      DatagramFinds(cfg, m, wire, src, ParseHeader(wire).value.id.session);
    } else {
      UnparsedIsNothing(cfg, m, wire, src);
    }
    NothingToOpen(cfg, m);
  }

  lemma UnparsedIsNothing(cfg: Config, m: Machine, wire: Bytes, src: Option<P.AddrPort>)
    requires ParseHeader(wire).Err?
    ensures Step(cfg, m, Datagram(wire, src)) == m
  {
    hide ParseHeader;
  }

  lemma NothingToOpen(cfg: Config, m: Machine)
    requires m.recv == Ready
    ensures Step(cfg, m, Open) == m && Step(cfg, m, Judge) == m
  {
  }

  lemma ResolvedIsSteps(cfg: Config, m: Machine, wire: Bytes, src: Option<P.AddrPort>, id: SessionId, s: Session)
    requires m.recv == Ready && Pointed(m.cache, m.sessions)
    requires ParseHeader(wire).Ok? && id == ParseHeader(wire).value.id.session
    requires Resolve(m.keys, cfg.capacity, CacheOf(m.cache, m.sessions), id) == Ok(s) && s.id == id
    ensures var m', cache := Taken(cfg, m, wire, src), CacheOf(m.cache, m.sessions);
            && Pointed(m'.cache, m'.sessions) && SameTables(m, m')
            && match Authenticate(m.vault, s, wire)
               case Err(_) => m'.recv == Ready && CacheOf(m'.cache, m'.sessions) == cache[id := s]
               case Ok(p) =>
                 && CacheOf(m'.cache, m'.sessions) == cache[id := s][id := Observe(s, p.number)]
                 && m'.recv == Judged(|m.auths|, Replay.Decide(s.window, p.number) == Replay.FirstCopy)
                 && (m'.recv.first ==> m'.firsts == m.firsts + [|m.auths|]) && |m'.auths| == |m.auths| + 1
                 && m'.auths[|m.auths|].id == id && m'.auths[|m.auths|].payload == p.payload && m'.auths[|m.auths|].src == src
  {
    DatagramFinds(cfg, m, wire, src, id);
    var m1 := Step(cfg, m, Datagram(wire, src));
    OpenJudge(cfg, m1, id, wire, src);
    hide Step, Resolve, ParseHeader, Authenticate, Replay.Decide;
    match Authenticate(m.vault, s, wire)
    case Err(_) =>
    case Ok(p) => UpdateCached(m1.cache, m1.sessions, id, Observe(s, p.number));
  }

  /** A datagram, opened and judged without interruption, does to the cache what handling it does,
      and is delivered with the same payload and decision. */
  lemma DatagramIsSteps(cfg: Config, m: Machine, wire: Bytes, src: Option<P.AddrPort>)
    requires m.recv == Ready && Pointed(m.cache, m.sessions)
    ensures var m' := Taken(cfg, m, wire, src);
            var h := Handle(m.keys, cfg.capacity, CacheOf(m.cache, m.sessions), m.vault, wire);
            && Pointed(m'.cache, m'.sessions) && CacheOf(m'.cache, m'.sessions) == h.cache && SameTables(m, m')
            && match h.result
               case Err(_) => m'.recv == Ready
               case Ok(d) =>
                 && m'.recv == Judged(|m.auths|, d.decision == Replay.FirstCopy)
                 && (m'.recv.first ==> m'.firsts == m.firsts + [|m.auths|]) && |m'.auths| == |m.auths| + 1
                 && m'.auths[|m.auths|].id == ParseHeader(wire).value.id.session
                 && m'.auths[|m.auths|].payload == d.payload && m'.auths[|m.auths|].src == src
  {
    hide ParseHeader, Taken, Pointed, Authenticate, Observe, Replay.Decide, CacheOf, Resolve, SameTables;
    var cache := CacheOf(m.cache, m.sessions);
    SameTablesAgain(m);
    if ParseHeader(wire).Err? {
      RejectedIsSteps(cfg, m, wire, src);
    } else {
      var id := ParseHeader(wire).value.id.session;
      match Resolve(m.keys, cfg.capacity, cache, id)
      case Err(_) => RejectedIsSteps(cfg, m, wire, src);
      case Ok(s) =>
        ResolvedHasId(m, cfg.capacity, id, s);
        ResolvedIsSteps(cfg, m, wire, src, id, s);
    }
  }

  lemma SameTablesAgain(m: Machine)
    ensures SameTables(m, m)
  {
  }

  lemma ResolvedHasId(m: Machine, capacity: int, id: SessionId, s: Session)
    requires Pointed(m.cache, m.sessions) && Resolve(m.keys, capacity, CacheOf(m.cache, m.sessions), id) == Ok(s)
    ensures s.id == id
  {
  }

  lemma NoteRecords(cfg: Config, m: Machine, k: nat, first: bool)
    requires m.recv == Judged(k, first) && k < |m.auths|
    ensures var m', a := Step(cfg, m, Note), m.auths[k];
            && m' == m.(paths := m'.paths, notes := m'.notes, noted := m'.noted, recv := if first then Leaving else Ready)
            && m'.paths == if a.src.Some? then P.RecordState(m.paths, a.id, a.src.value, m.clock) else m.paths
  {
    hide P.RecordState;
  }

  lemma LetOutFilters(cfg: Config, m: Machine, ok: bool)
    requires m.recv == Leaving && m.firsts != [] && m.firsts[|m.firsts| - 1] < |m.auths|
    ensures var a := m.auths[m.firsts[|m.firsts| - 1]];
            Step(cfg, m, LetOut(ok))
            == m.(recv := Ready, tun := m.tun + if ok && Filter(m.leases, a.id, a.payload) == Forward
                                                then [Tun(|m.firsts| - 1, a.payload)] else [])
  {
    hide Filter;
    assert m.tun + [] == m.tun;
  }

  /** What a judged datagram leaves behind. */
  ghost predicate Onwards(m: Machine, a: Auth, first: bool, ok: bool, m': Machine) {
    && m' == m.(paths := m'.paths, notes := m'.notes, noted := m'.noted, tun := m'.tun, recv := Ready)
    && m'.paths == (if a.src.Some? then P.RecordState(m.paths, a.id, a.src.value, m.clock) else m.paths)
    && (first ==> m.firsts != [])
    && m'.tun == m.tun + if first && ok && Filter(m.leases, a.id, a.payload) == Forward
                         then [Tun(|m.firsts| - 1, a.payload)] else []
  }

  lemma OnwardIsSteps(cfg: Config, m: Machine, k: nat, first: bool, ok: bool)
    requires m.recv == Judged(k, first) && k < |m.auths| && (first ==> m.firsts != [] && m.firsts[|m.firsts| - 1] == k)
    ensures Onwards(m, m.auths[k], first, ok, Step(cfg, Step(cfg, m, Note), LetOut(ok)))
  {
    NoteRecords(cfg, m, k, first);
    var m1 := Step(cfg, m, Note);
    if first {
      hide Step, Filter, P.RecordState;
      LetOutFilters(cfg, m1, ok);
    } else {
      assert Step(cfg, m1, LetOut(ok)) == m1;
      assert m.tun + [] == m.tun;
    }
  }

  function PacketsOf(tun: seq<Tun>): seq<Bytes> {
    seq(|tun|, i requires 0 <= i < |tun| => tun[i].packet)
  }

  lemma IdleReceive(cfg: Config, m: Machine, ok: bool)
    requires m.recv == Ready
    ensures Step(cfg, Step(cfg, m, Note), LetOut(ok)) == m
  {
  }

  /** The record of a datagram says what its recording and its way out depend on. */
  lemma RecordSays(m: Machine, wire: Bytes, d: Delivery, a: Auth, src: Option<P.AddrPort>, ok: bool)
    requires ParseHeader(wire).Ok? && a.id == ParseHeader(wire).value.id.session && a.payload == d.payload && a.src == src
    ensures var rec := DataRecordOf(wire, Ok(d));
            && Recorded(m.paths, rec, src, m.clock)
               == (if a.src.Some? then P.RecordState(m.paths, a.id, a.src.value, m.clock) else m.paths)
            && Egressed(m.leases, rec, ok)
               == if d.decision == Replay.FirstCopy && ok && Filter(m.leases, a.id, a.payload) == Forward then [a.payload] else []
  {
    assert ValidId(ParseHeader(wire).value.id);
    hide ParseHeader, Filter, P.RecordState;
  }

  lemma LastPacket(tun: seq<Tun>, more: seq<Tun>)
    ensures (tun + more)[|tun|..] == more && tun <= tun + more
    ensures more == [] ==> PacketsOf(more) == []
    ensures |more| == 1 ==> PacketsOf(more) == [more[0].packet]
  {
  }

  /** Tables, path and device after one round of the receive loop that produced `rec`. */
  ghost predicate AsServed(m: Machine, m': Machine, cache: Cache, rec: DataRecord, src: Option<P.AddrPort>, ok: bool) {
    && m'.recv == Ready && Pointed(m'.cache, m'.sessions) && CacheOf(m'.cache, m'.sessions) == cache
    && m'.keys == m.keys && m'.leases == m.leases && m'.vault == m.vault
    && m'.paths == Recorded(m.paths, rec, src, m.clock)
    && m.tun <= m'.tun && PacketsOf(m'.tun[|m.tun|..]) == Egressed(m.leases, rec, ok)
  }

  lemma OnwardServes(m: Machine, m1: Machine, m': Machine, wire: Bytes, d: Delivery, a: Auth, src: Option<P.AddrPort>, ok: bool)
    requires ParseHeader(wire).Ok? && a.id == ParseHeader(wire).value.id.session && a.payload == d.payload && a.src == src
    requires SameTables(m, m1) && Pointed(m1.cache, m1.sessions)
    requires Onwards(m1, a, d.decision == Replay.FirstCopy, ok, m')
    ensures AsServed(m, m', CacheOf(m1.cache, m1.sessions), DataRecordOf(wire, Ok(d)), src, ok)
  {
    RecordSays(m, wire, d, a, src, ok);
    hide ParseHeader, Filter, P.RecordState, Recorded, Egressed, DataRecordOf, CacheOf, Pointed, PacketsOf;
    var out := if d.decision == Replay.FirstCopy && ok && Filter(m.leases, a.id, a.payload) == Forward
               then [Tun(|m1.firsts| - 1, a.payload)] else [];
    LastPacket(m.tun, out);
  }

  lemma RejectedServes(m: Machine, m1: Machine, wire: Bytes, e: PlaneError, src: Option<P.AddrPort>, ok: bool)
    requires SameTables(m, m1) && Pointed(m1.cache, m1.sessions) && m1.recv == Ready
    ensures AsServed(m, m1, CacheOf(m1.cache, m1.sessions), DataRecordOf(wire, Err(e)), src, ok)
  {
    hide ParseHeader, Filter, P.RecordState, CacheOf, Pointed;
    assert m.tun[|m.tun|..] == [];
  }

  /** The five actions on a datagram are one round of the receive loop: the same sessions, the same
      recorded path, the same packet to the device. */
  lemma ServeIsSteps(cfg: Config, m: Machine, wire: Bytes, src: Option<P.AddrPort>, ok: bool)
    requires m.recv == Ready && Pointed(m.cache, m.sessions)
    ensures var m' := Step(cfg, Step(cfg, Taken(cfg, m, wire, src), Note), LetOut(ok));
            var h := Handle(m.keys, cfg.capacity, CacheOf(m.cache, m.sessions), m.vault, wire);
            AsServed(m, m', h.cache, DataRecordOf(wire, h.result), src, ok)
  {
    DatagramIsSteps(cfg, m, wire, src);
    var m1 := Taken(cfg, m, wire, src);
    var h := Handle(m.keys, cfg.capacity, CacheOf(m.cache, m.sessions), m.vault, wire);
    assert h.result.Ok? ==> ParseHeader(wire).Ok?;
    hide Taken, Handle, ParseHeader, Step, CacheOf, Pointed, SameTables, AsServed, DataRecordOf, Onwards;
    match h.result
    case Err(e) =>
      IdleReceive(cfg, m1, ok);
      RejectedServes(m, m1, wire, e, src, ok);
    case Ok(d) =>
      OnwardIsSteps(cfg, m1, |m.auths|, m1.recv.first, ok);
      OnwardServes(m, m1, Step(cfg, Step(cfg, m1, Note), LetOut(ok)), wire, d, m1.auths[|m.auths|], src, ok);
  }

  // ---- Return packets --------------------------------------------------------------------------

  /** The five actions on a packet from the tunnel. */
  function Answered(cfg: Config, m: Machine, packet: Bytes, accepts: P.AddrPort -> bool): Machine {
    var chosen := Step(cfg, Step(cfg, m, Packet(packet)), Choose);
    Step(cfg, Step(cfg, Step(cfg, chosen, Number), SealIt), Deliver(accepts))
  }

  /** The datagrams and endpoints of a stretch of sends. */
  function SentOf(sends: seq<Send>): seq<Sent> {
    seq(|sends|, i requires 0 <= i < |sends| => Sent(sends[i].datagram, sends[i].to))
  }

  lemma {:induction false} CopiesAccepted(s: Send, dsts: seq<P.AddrPort>, accepts: P.AddrPort -> bool)
    ensures SentOf(Copies(s, dsts, accepts)) == Accepted(s.datagram, dsts, accepts)
  {
    if dsts != [] {
      CopiesAccepted(s, dsts[..|dsts| - 1], accepts);
    }
  }

  lemma PacketChosen(cfg: Config, m: Machine, packet: Bytes, id: SessionId)
    requires m.ret == Waiting && Pointed(m.cache, m.sessions)
    requires ParseIPv4(packet).Some?
    requires var dst := ParseIPv4(packet).value.dst; dst in m.leases.reverse && m.leases.reverse[dst] == id
    ensures var m' := Step(cfg, Step(cfg, m, Packet(packet)), Choose);
            match Resolve(m.keys, cfg.capacity, CacheOf(m.cache, m.sessions), id)
            case Err(_) => m' == m
            case Ok(s) =>
              && Pointed(m'.cache, m'.sessions) && id in m'.cache && m'.sessions[m'.cache[id]] == s
              && m' == m.(cache := m'.cache, sessions := m'.sessions, born := m'.born, ret := Chosen(id, packet, m'.cache[id]))
              && CacheOf(m'.cache, m'.sessions) == CacheOf(m.cache, m.sessions)[id := s]
  {
    var m1 := Step(cfg, m, Packet(packet));
    assert m1 == m.(ret := Looked(id, packet)) by { hide ParseIPv4; }
    FindResolves(cfg, m1, id);
    hide Find, Resolve, CacheOf, Pointed, ParseIPv4;
  }

  lemma NumberSealed(cfg: Config, m: Machine, id: SessionId, packet: Bytes, i: nat)
    requires m.ret == Chosen(id, packet, i) && i < |m.sessions| && |packet| <= MAX_PAYLOAD
    ensures var m', s := Step(cfg, Step(cfg, m, Number), SealIt), Assign(m.sessions[i]);
            m' == m.(sessions := m.sessions[i := s], seals := m'.seals, ret := Sealed(id, packet, i, s.next),
                     vault := m.vault[PacketBox(cfg.enc, s, s.next, packet) := packet])
  {
    hide PacketBox, Assign;
    var s := Assign(m.sessions[i]);
    assert Step(cfg, m, Number) == m.(sessions := m.sessions[i := s], ret := Numbered(id, packet, i, s.next));
  }

  lemma OversizeDropped(cfg: Config, m: Machine, id: SessionId, packet: Bytes, i: nat, accepts: P.AddrPort -> bool)
    requires m.ret == Chosen(id, packet, i) && i < |m.sessions| && |packet| > MAX_PAYLOAD
    ensures Step(cfg, Step(cfg, Step(cfg, m, Number), SealIt), Deliver(accepts)) == m.(ret := Waiting)
  {
    assert Step(cfg, m, Number) == m.(ret := Waiting);
  }

  lemma DeliverCopies(cfg: Config, m: Machine, id: SessionId, packet: Bytes, i: nat, n: U64, accepts: P.AddrPort -> bool)
    requires m.ret == Sealed(id, packet, i, n) && i < |m.sessions|
    ensures var m', framed := Step(cfg, m, Deliver(accepts)), PacketWire(cfg.enc, m.sessions[i], n, packet);
            && m' == m.(paths := P.PruneState(m.paths, id, m.clock - cfg.ttl), notes := m'.notes, noted := m'.noted, sends := m'.sends, ret := Waiting)
            && |m.sends| <= |m'.sends| && m'.sends[..|m.sends|] == m.sends
            && SentOf(m'.sends[|m.sends|..]) == Accepted(framed, P.FreshIn(m.paths, id, m.clock - cfg.ttl), accepts)
  {
    hide PacketWire, P.PruneState, P.FreshIn, Copies, Accepted;
    var framed, dsts := PacketWire(cfg.enc, m.sessions[i], n, packet), P.FreshIn(m.paths, id, m.clock - cfg.ttl);
    var s := Send(id, i, n, packet, framed, P.AddrPort([], 0), m.clock);
    CopiesAccepted(s, dsts, accepts);
    assert Step(cfg, m, Deliver(accepts)).sends == m.sends + Copies(s, dsts, accepts);
    assert (m.sends + Copies(s, dsts, accepts))[|m.sends|..] == Copies(s, dsts, accepts);
  }

  /** The outcome of a return packet: tables and datagrams as routed, nothing else touched. */
  ghost predicate AsRouted(m: Machine, m': Machine, r: Routed, accepts: P.AddrPort -> bool) {
    && Pointed(m'.cache, m'.sessions) && CacheOf(m'.cache, m'.sessions) == r.cache
    && m'.vault == r.vault && m'.paths == r.paths && m'.ret == Waiting
    && m'.keys == m.keys && m'.leases == m.leases && m'.recv == m.recv
    && |m.sends| <= |m'.sends| && m'.sends[..|m.sends|] == m.sends
    && SentOf(m'.sends[|m.sends|..]) == if r.verdict.SendTo? then Accepted(r.verdict.framed, r.verdict.dsts, accepts) else []
  }

  lemma IdleReturn(cfg: Config, m: Machine, accepts: P.AddrPort -> bool)
    requires m.ret == Waiting
    ensures Step(cfg, m, Choose) == m
    ensures Step(cfg, Step(cfg, Step(cfg, m, Number), SealIt), Deliver(accepts)) == m
  {
    assert Step(cfg, m, Number) == m;
    assert Step(cfg, m, SealIt) == m;
  }

  lemma UnroutableIsSteps(cfg: Config, m: Machine, packet: Bytes, accepts: P.AddrPort -> bool)
    requires m.ret == Waiting && (ParseIPv4(packet).None? || ParseIPv4(packet).value.dst !in m.leases.reverse)
    ensures Answered(cfg, m, packet, accepts) == m
  {
    hide ParseIPv4;
    assert Step(cfg, m, Packet(packet)) == m;
    hide Step;
    IdleReturn(cfg, m, accepts);
  }

  /** `m4` is `m` with a packet sealed and nothing sent yet. */
  ghost predicate SealedFrom(m: Machine, m4: Machine) {
    && m4.paths == m.paths && m4.clock == m.clock && m4.keys == m.keys && m4.leases == m.leases
    && m4.recv == m.recv && m4.sends == m.sends
  }

  lemma ChosenSeals(cfg: Config, m: Machine, m2: Machine, id: SessionId, packet: Bytes, i: nat)
    requires m2 == m.(cache := m2.cache, sessions := m2.sessions, born := m2.born, ret := Chosen(id, packet, i))
    requires i < |m2.sessions| && |packet| <= MAX_PAYLOAD
    ensures var m4, s := Step(cfg, Step(cfg, m2, Number), SealIt), Assign(m2.sessions[i]);
            && SealedFrom(m, m4) && m4.cache == m2.cache && m4.sessions == m2.sessions[i := s]
            && m4.ret == Sealed(id, packet, i, s.next)
            && m4.vault == m.vault[PacketBox(cfg.enc, s, s.next, packet) := packet]
  {
    hide Step, PacketBox, Assign;
    NumberSealed(cfg, m2, id, packet, i);
  }

  lemma SealedDelivers(cfg: Config, m: Machine, m4: Machine, id: SessionId, packet: Bytes, i: nat, n: U64, accepts: P.AddrPort -> bool)
    requires SealedFrom(m, m4) && m4.ret == Sealed(id, packet, i, n) && i < |m4.sessions| && Pointed(m4.cache, m4.sessions)
    ensures var cutoff := m.clock - cfg.ttl;
            var r := Routed(CacheOf(m4.cache, m4.sessions), m4.vault, P.PruneState(m.paths, id, cutoff),
                            SendTo(id, PacketWire(cfg.enc, m4.sessions[i], n, packet), P.FreshIn(m.paths, id, cutoff)));
            AsRouted(m, Step(cfg, m4, Deliver(accepts)), r, accepts)
  {
    hide Step, CacheOf, Pointed, PacketWire, P.PruneState, P.FreshIn, Accepted, SentOf;
    DeliverCopies(cfg, m4, id, packet, i, n, accepts);
  }

  /** A session that can seal the packet numbers it, seals it and sends it to its fresh endpoints. */
  lemma SealedIsRouted(cfg: Config, m: Machine, m2: Machine, id: SessionId, packet: Bytes, s: Session, accepts: P.AddrPort -> bool)
    requires Pointed(m.cache, m.sessions) && Pointed(m2.cache, m2.sessions) && id in m2.cache && s.id == id
    requires m2 == m.(cache := m2.cache, sessions := m2.sessions, born := m2.born, ret := Chosen(id, packet, m2.cache[id]))
    requires m2.sessions[m2.cache[id]] == s && |packet| <= MAX_PAYLOAD
    requires CacheOf(m2.cache, m2.sessions) == CacheOf(m.cache, m.sessions)[id := s]
    ensures var s', cutoff := Assign(s), m.clock - cfg.ttl;
            var r := Routed(CacheOf(m.cache, m.sessions)[id := s'], m.vault[PacketBox(cfg.enc, s', s'.next, packet) := packet],
                            P.PruneState(m.paths, id, cutoff),
                            SendTo(id, PacketWire(cfg.enc, s', s'.next, packet), P.FreshIn(m.paths, id, cutoff)));
            AsRouted(m, Step(cfg, Step(cfg, Step(cfg, m2, Number), SealIt), Deliver(accepts)), r, accepts)
  {
    var i := m2.cache[id];
    assert i < |m2.sessions|;
    hide Step, CacheOf, Pointed, PacketWire, PacketBox, P.PruneState, P.FreshIn, AsRouted, SealedFrom;
    var s' := Assign(s);
    var cache: Cache := CacheOf(m.cache, m.sessions);
    assert s'.id == id && cache[id := s][id := s'] == cache[id := s'];
    hide Assign;
    UpdateCached(m2.cache, m2.sessions, id, s');
    ChosenSeals(cfg, m, m2, id, packet, i);
    SealedDelivers(cfg, m, Step(cfg, Step(cfg, m2, Number), SealIt), id, packet, i, s'.next, accepts);
  }

  lemma UnsentAsRouted(m: Machine, m': Machine, r: Routed, accepts: P.AddrPort -> bool)
    requires Pointed(m'.cache, m'.sessions) && CacheOf(m'.cache, m'.sessions) == r.cache && m'.ret == Waiting
    requires m' == m.(cache := m'.cache, sessions := m'.sessions, born := m'.born, ret := m'.ret)
    requires m.vault == r.vault && m.paths == r.paths && !r.verdict.SendTo?
    ensures AsRouted(m, m', r, accepts)
  {
    assert m.sends[..|m.sends|] == m.sends && m.sends[|m.sends|..] == [];
    assert SentOf([]) == [];
  }

  lemma RoutableIsSteps(cfg: Config, m: Machine, packet: Bytes, id: SessionId, accepts: P.AddrPort -> bool)
    requires m.ret == Waiting && Pointed(m.cache, m.sessions)
    requires ParseIPv4(packet).Some?
    requires var dst := ParseIPv4(packet).value.dst; dst in m.leases.reverse && m.leases.reverse[dst] == id
    ensures var r := RouteTo(cfg.enc, m.keys, cfg.capacity, CacheOf(m.cache, m.sessions), m.vault, m.paths, id, packet,
                             m.clock - cfg.ttl);
            AsRouted(m, Answered(cfg, m, packet, accepts), r, accepts)
  {
    PacketChosen(cfg, m, packet, id);
    var m2 := Step(cfg, Step(cfg, m, Packet(packet)), Choose);
    var cache := CacheOf(m.cache, m.sessions);
    var r := RouteTo(cfg.enc, m.keys, cfg.capacity, cache, m.vault, m.paths, id, packet, m.clock - cfg.ttl);
    hide ParseIPv4, Step, CacheOf, Pointed, AsRouted, PacketWire, PacketBox, P.PruneState, P.FreshIn, Assign;
    match Resolve(m.keys, cfg.capacity, cache, id)
    case Err(_) =>
      IdleReturn(cfg, m, accepts);
      UnsentAsRouted(m, m, r, accepts);
    case Ok(s) =>
      ResolvedHasId(m, cfg.capacity, id, s);
      hide Resolve;
      if |packet| > MAX_PAYLOAD {
        OversizeDropped(cfg, m2, id, packet, m2.cache[id], accepts);
        UnsentAsRouted(m, m2.(ret := Waiting), r, accepts);
      } else {
        SealedIsRouted(cfg, m, m2, id, packet, s, accepts);
      }
  }

  /** The five actions on a packet from the tunnel are one round of the return loop. */
  lemma ReturnIsSteps(cfg: Config, m: Machine, packet: Bytes, accepts: P.AddrPort -> bool)
    requires m.ret == Waiting && Pointed(m.cache, m.sessions)
    ensures var r := Route(cfg.enc, m.keys, cfg.capacity, m.leases, CacheOf(m.cache, m.sessions), m.vault, m.paths, packet,
                           m.clock - cfg.ttl);
            AsRouted(m, Answered(cfg, m, packet, accepts), r, accepts)
  {
    hide ParseIPv4, Answered, RouteTo;
    match ParseIPv4(packet)
    case None => UnroutableIsSteps(cfg, m, packet, accepts);
    case Some(inner) =>
      if inner.dst in m.leases.reverse {
        hide AsRouted, Pointed, CacheOf;
        RoutableIsSteps(cfg, m, packet, m.leases.reverse[inner.dst], accepts);
      } else {
        UnroutableIsSteps(cfg, m, packet, accepts);
      }
  }
}
