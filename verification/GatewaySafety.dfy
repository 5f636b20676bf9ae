/** What every action of every interleaving of the gateway's loops keeps, and what follows for the
    packets that leave through the tunnel and the frames that go back to clients. */
module GatewaySafety {
  import opened Basics
  import opened DataWire
  import opened SessionSpec
  import opened GatewaySpec
  import opened Allocators
  import opened GatewayRuns
  import P = PathSets
  import Replay = ReplaySpec

  // ---- The invariant ---------------------------------------------------------------------------

  /** Cached sessions are sessions of their ids, which are leased. */
  ghost predicate CacheOk(cache: map<SessionId, nat>, sessions: seq<Session>, leases: Leases) {
    forall id | id in cache :: cache[id] < |sessions| && sessions[cache[id]].id == id && id in leases.forward
  }

  /** Every registered session has a lease, but for one whose handshake is still under way. */
  ghost predicate KeysLeased(keys: Keys, leases: Leases, recv: Receiving) {
    forall id | id in keys :: id in leases.forward || recv == Registered(id) || recv == Refusing(id)
  }

  ghost predicate SessionsOk(sessions: seq<Session>) {
    forall i | 0 <= i < |sessions| ::
      && sessions[i].role == Responder && !IsZero(sessions[i].id) && |sessions[i].key| == KEY_SIZE
      && forall a | a in sessions[i].window.accepted :: 0 < a <= sessions[i].window.last
  }

  /** The datagram names session `id`. */
  ghost predicate Names(wire: Bytes, id: SessionId) {
    ParseHeader(wire).Ok? && ParseHeader(wire).value.id.session == id
  }

  /** That datagram says itself which packet of which session it is. */
  ghost predicate SaysSo(a: Auth) {
    && |a.box.aad| == DATA_HEADER_SIZE
    && ParseHeader(WireOf(a)) == Ok(Header(PacketId(a.id, a.number), ToGateway))
  }

  /** Every authenticated arrival was a box sealed for its session, in the client's direction. */
  ghost predicate AuthsOk(sessions: seq<Session>, vault: Vault, auths: seq<Auth>) {
    forall k | 0 <= k < |auths| ::
      var a := auths[k];
      && a.inst < |sessions| && a.id == sessions[a.inst].id
      && a.box.key == sessions[a.inst].key && a.box.nonce == Nonce(ToGateway, a.number)
      && a.box in vault && vault[a.box] == a.payload && SaysSo(a)
  }

  /** First copies are accepted numbers of their sessions, no number twice. */
  ghost predicate FirstsOk(sessions: seq<Session>, auths: seq<Auth>, firsts: seq<nat>) {
    && (forall x | 0 <= x < |firsts| ::
          firsts[x] < |auths| && var a := auths[firsts[x]];
          a.inst < |sessions| && a.number in sessions[a.inst].window.accepted)
    && (forall x, y | 0 <= x < y < |firsts| ::
          auths[firsts[x]].inst != auths[firsts[y]].inst || auths[firsts[x]].number != auths[firsts[y]].number)
  }

  /** Packets in the tunnel are first copies, each at most once and in order, from their session's
      own address. */
  ghost predicate TunOk(leases: Leases, auths: seq<Auth>, firsts: seq<nat>, tun: seq<Tun>) {
    && (forall t | 0 <= t < |tun| ::
          tun[t].first < |firsts| && firsts[tun[t].first] < |auths|
          && var a := auths[firsts[tun[t].first]];
          tun[t].packet == a.payload && Filter(leases, a.id, a.payload) == Forward)
    && (forall t, u | 0 <= t < u < |tun| :: tun[t].first < tun[u].first)
  }

  /** The receive loop refers to history that exists, and the first copy in its hands is not out yet. */
  ghost predicate RecvOk(recv: Receiving, sessions: seq<Session>, auths: seq<Auth>, firsts: seq<nat>, tun: seq<Tun>) {
    match recv
    case Resolved(i, wire, _) => i < |sessions| && Names(wire, sessions[i].id)
    case Opened(k) => k < |auths|
    case Judged(k, first) => k < |auths| && (first ==> LatestIsUnsent(firsts, tun) && firsts[|firsts| - 1] == k)
    case Leaving => LatestIsUnsent(firsts, tun)
    case _ => true
  }

  ghost predicate LatestIsUnsent(firsts: seq<nat>, tun: seq<Tun>) {
    firsts != [] && forall t | 0 <= t < |tun| :: tun[t].first < |firsts| - 1
  }

  ghost predicate LeasedTo(leases: Leases, id: SessionId, packet: Bytes) {
    && ParseIPv4(packet).Some? && id in leases.forward && leases.forward[id] == ParseIPv4(packet).value.dst
  }

  /** The return loop works for the session that leases the packet's destination. */
  ghost predicate RetOk(leases: Leases, sessions: seq<Session>, seals: seq<Seal>, ret: Returning) {
    match ret
    case Waiting => true
    case Looked(id, packet) => LeasedTo(leases, id, packet)
    case Chosen(id, packet, i) => LeasedTo(leases, id, packet) && i < |sessions| && sessions[i].id == id
    case Numbered(id, packet, i, n) =>
      && LeasedTo(leases, id, packet) && i < |sessions| && sessions[i].id == id && sessions[i].next == n && n > 0
      && forall z | 0 <= z < |seals| && seals[z].inst == i :: seals[z].number < n
    case Sealed(id, packet, i, n) =>
      && LeasedTo(leases, id, packet) && i < |sessions| && sessions[i].id == id
      && Seal(i, n, packet) in seals
  }

  /** A session never seals one number twice. */
  ghost predicate SealsOk(sessions: seq<Session>, seals: seq<Seal>) {
    && (forall z | 0 <= z < |seals| ::
          seals[z].inst < |sessions| && 0 < seals[z].number <= sessions[seals[z].inst].next)
    && (forall y, z | 0 <= y < z < |seals| && seals[y].inst == seals[z].inst :: seals[y].number < seals[z].number)
  }

  /** A note within `ttl` before `at` says that `to` was seen for `id`. */
  ghost predicate SeenWithin(notes: seq<P.Event>, id: SessionId, to: P.AddrPort, at: P.Time, ttl: int) {
    exists e :: 0 <= e < |notes| && notes[e].Seen? && notes[e].id == id && notes[e].addr == to && at - ttl < notes[e].at <= at
  }

  ghost predicate SendOk(cfg: Config, leases: Leases, sessions: seq<Session>, seals: seq<Seal>, notes: seq<P.Event>, s: Send) {
    && LeasedTo(leases, s.id, s.packet)
    && s.inst < |sessions| && sessions[s.inst].id == s.id && Seal(s.inst, s.number, s.packet) in seals
    && s.datagram == PacketWire(cfg.enc, sessions[s.inst], s.number, s.packet)
    && SeenWithin(notes, s.id, s.to, s.at, cfg.ttl)
  }

  ghost predicate SendsOk(cfg: Config, leases: Leases, sessions: seq<Session>, seals: seq<Seal>, notes: seq<P.Event>, sends: seq<Send>) {
    forall z | 0 <= z < |sends| :: SendOk(cfg, leases, sessions, seals, notes, sends[z])
  }

  /** Note `ev` records arrival `k`: its session, its endpoint, at or after the time it was opened. */
  ghost predicate Records(auths: seq<Auth>, ev: P.Event, k: nat) {
    ev.Seen? && k < |auths| && auths[k].id == ev.id && auths[k].src == Some(ev.addr) && auths[k].at <= ev.at
  }

  /** Every recording of an endpoint is that of an arrival of its own, in the order of arrival. */
  ghost predicate NotesOk(notes: seq<P.Event>, noted: seq<nat>, clock: P.Time, auths: seq<Auth>) {
    && |noted| == |notes|
    && (forall k | 0 <= k < |auths| :: auths[k].at <= clock)
    && (forall e | 0 <= e < |notes| && notes[e].Seen? :: Records(auths, notes[e], noted[e]))
    && (forall e, f | 0 <= e < f < |notes| && notes[e].Seen? && notes[f].Seen? :: noted[e] < noted[f])
  }

  /** The arrival in the receive loop's hands has not been recorded yet. */
  ghost predicate Unrecorded(recv: Receiving, notes: seq<P.Event>, noted: seq<nat>) {
    (recv.Opened? || recv.Judged?) ==>
      forall e | 0 <= e < |notes| && e < |noted| && notes[e].Seen? :: noted[e] < recv.auth
  }

  /** The path set is what its history says. */
  ghost predicate PathsOk(cfg: Config, paths: P.Paths, notes: seq<P.Event>, clock: P.Time) {
    paths == P.Run(cfg.ttl, notes) && P.Monotone(notes, clock)
  }

  ghost predicate Inv(cfg: Config, m: Machine) {
    && LeaseInv(cfg.pool, m.leases)
    && CacheOk(m.cache, m.sessions, m.leases)
    && KeysLeased(m.keys, m.leases, m.recv)
    && SessionsOk(m.sessions) && (m.sessions != [] ==> cfg.capacity > 0)
    && AuthsOk(m.sessions, m.vault, m.auths)
    && FirstsOk(m.sessions, m.auths, m.firsts)
    && TunOk(m.leases, m.auths, m.firsts, m.tun)
    && RecvOk(m.recv, m.sessions, m.auths, m.firsts, m.tun)
    && RetOk(m.leases, m.sessions, m.seals, m.ret)
    && SealsOk(m.sessions, m.seals)
    && SendsOk(cfg, m.leases, m.sessions, m.seals, m.notes, m.sends)
    && PathsOk(cfg, m.paths, m.notes, m.clock)
    && NotesOk(m.notes, m.noted, m.clock, m.auths)
    && Unrecorded(m.recv, m.notes, m.noted)
  }

  // ---- Growth of sessions ----------------------------------------------------------------------

  /** Sessions keep their identity; accepted numbers and counters only grow. */
  ghost predicate Grown(ss: seq<Session>, ss': seq<Session>) {
    && |ss| <= |ss'|
    && forall i | 0 <= i < |ss| ::
         && ss'[i].id == ss[i].id && ss'[i].key == ss[i].key && ss'[i].role == ss[i].role
         && ss[i].window.accepted <= ss'[i].window.accepted
  }

  lemma GrownCache(cache: map<SessionId, nat>, ss: seq<Session>, ss': seq<Session>, leases: Leases)
    requires CacheOk(cache, ss, leases) && Grown(ss, ss')
    ensures CacheOk(cache, ss', leases)
  {
  }

  lemma GrownAuths(ss: seq<Session>, ss': seq<Session>, vault: Vault, auths: seq<Auth>)
    requires AuthsOk(ss, vault, auths) && Grown(ss, ss')
    ensures AuthsOk(ss', vault, auths)
  {
    hide SaysSo;
  }

  lemma GrownFirsts(ss: seq<Session>, ss': seq<Session>, auths: seq<Auth>, firsts: seq<nat>)
    requires FirstsOk(ss, auths, firsts) && Grown(ss, ss')
    ensures FirstsOk(ss', auths, firsts)
  {
  }

  lemma GrownSends(cfg: Config, leases: Leases, ss: seq<Session>, ss': seq<Session>, seals: seq<Seal>, notes: seq<P.Event>, sends: seq<Send>)
    requires SendsOk(cfg, leases, ss, seals, notes, sends) && Grown(ss, ss')
    ensures SendsOk(cfg, leases, ss', seals, notes, sends)
  {
    hide LeasedTo, SeenWithin;
    forall z | 0 <= z < |sends| ensures SendOk(cfg, leases, ss', seals, notes, sends[z]) {
      assert SendOk(cfg, leases, ss, seals, notes, sends[z]);
      SameWire(cfg.enc, ss[sends[z].inst], ss'[sends[z].inst], sends[z].number, sends[z].packet);
    }
  }

  lemma SameWire(enc: Cipher, s: Session, s': Session, n: U64, packet: Bytes)
    requires s.id == s'.id && s.key == s'.key && s.role == s'.role
    ensures PacketWire(enc, s, n, packet) == PacketWire(enc, s', n, packet)
  {
  }

  // ---- Handshake actions and forgetting --------------------------------------------------------

  lemma HelloTables(keys: Keys, leases: Leases, id: SessionId, key: Bytes)
    requires KeysLeased(keys, leases, Ready)
    ensures KeysLeased(keys[id := key], leases, Registered(id))
  {
  }

  lemma HelloKeeps(cfg: Config, m: Machine, id: SessionId, key: Bytes)
    requires Inv(cfg, m)
    ensures Inv(cfg, DoHello(m, id, key))
  {
    hide LeaseInv, CacheOk, KeysLeased, SessionsOk, AuthsOk, FirstsOk, TunOk, RetOk, SealsOk, SendsOk, PathsOk, NotesOk;
    if m.recv == Ready && id !in m.keys {
      HelloTables(m.keys, m.leases, id, key);
    }
  }

  /** Leases are only ever added. */
  ghost predicate LeasesGrown(l: Leases, l': Leases) {
    forall id | id in l.forward :: id in l'.forward && l'.forward[id] == l.forward[id]
  }

  lemma LeaseGrows(pool: set<Addr>, l: Leases, id: SessionId)
    requires LeaseInv(pool, l)
    ensures LeaseInv(pool, AllocateIn(l, id)) && LeasesGrown(l, AllocateIn(l, id))
  {
    AllocateKeeps(pool, l, id);
  }

  lemma LeaseTables(keys: Keys, cache: map<SessionId, nat>, ss: seq<Session>, l: Leases, l': Leases, id: SessionId)
    requires CacheOk(cache, ss, l) && KeysLeased(keys, l, Registered(id)) && LeasesGrown(l, l')
    requires id in l'.forward
    ensures CacheOk(cache, ss, l') && KeysLeased(keys, l', Ready) && KeysLeased(keys, l', Refusing(id))
  {
  }

  lemma LeaseTun(l: Leases, l': Leases, auths: seq<Auth>, firsts: seq<nat>, tun: seq<Tun>)
    requires TunOk(l, auths, firsts, tun) && LeasesGrown(l, l')
    ensures TunOk(l', auths, firsts, tun)
  {
    hide ParseIPv4;
  }

  lemma LeaseRet(l: Leases, l': Leases, ss: seq<Session>, seals: seq<Seal>, ret: Returning)
    requires RetOk(l, ss, seals, ret) && LeasesGrown(l, l')
    ensures RetOk(l', ss, seals, ret)
  {
    hide ParseIPv4;
  }

  lemma LeaseSends(cfg: Config, l: Leases, l': Leases, ss: seq<Session>, seals: seq<Seal>, notes: seq<P.Event>, sends: seq<Send>)
    requires SendsOk(cfg, l, ss, seals, notes, sends) && LeasesGrown(l, l')
    ensures SendsOk(cfg, l', ss, seals, notes, sends)
  {
    hide ParseIPv4, SeenWithin, PacketWire;
    forall z | 0 <= z < |sends| ensures SendOk(cfg, l', ss, seals, notes, sends[z]) {
      assert SendOk(cfg, l, ss, seals, notes, sends[z]);
    }
  }

  lemma LeaseRefused(keys: Keys, l: Leases, id: SessionId)
    requires KeysLeased(keys, l, Registered(id))
    ensures KeysLeased(keys, l, Refusing(id))
  {
  }

  lemma LeaseKeeps(cfg: Config, m: Machine, fits: bool)
    requires Inv(cfg, m)
    ensures Inv(cfg, DoLease(m, fits))
  {
    hide LeaseInv, CacheOk, KeysLeased, SessionsOk, AuthsOk, FirstsOk, TunOk, RetOk, SealsOk, SendsOk, PathsOk, NotesOk;
    if m.recv.Registered? {
      var id := m.recv.id;
      if LeaseFor(m.leases, id).None? {
        LeaseRefused(m.keys, m.leases, id);
      } else {
        var l := AllocateIn(m.leases, id);
        LeaseGrows(cfg.pool, m.leases, id);
        LeaseTables(m.keys, m.cache, m.sessions, m.leases, l, id);
        LeaseTun(m.leases, l, m.auths, m.firsts, m.tun);
        LeaseRet(m.leases, l, m.sessions, m.seals, m.ret);
        LeaseSends(cfg, m.leases, l, m.sessions, m.seals, m.notes, m.sends);
      }
    }
  }

  lemma UnwindTables(keys: Keys, l: Leases, id: SessionId)
    requires KeysLeased(keys, l, Refusing(id))
    ensures KeysLeased(keys - {id}, l, Ready)
  {
  }

  lemma UnwindKeeps(cfg: Config, m: Machine)
    requires Inv(cfg, m)
    ensures Inv(cfg, DoUnwind(m))
  {
    hide LeaseInv, CacheOk, KeysLeased, SessionsOk, AuthsOk, FirstsOk, TunOk, RetOk, SealsOk, SendsOk, PathsOk, NotesOk;
    if m.recv.Refusing? {
      UnwindTables(m.keys, m.leases, m.recv.id);
    }
  }

  lemma ForgetTables(keys: Keys, cache: map<SessionId, nat>, ss: seq<Session>, l: Leases, recv: Receiving, id: SessionId)
    requires CacheOk(cache, ss, l) && KeysLeased(keys, l, recv)
    ensures CacheOk(cache - {id}, ss, l) && KeysLeased(keys - {id}, l, recv)
  {
  }

  lemma ForgetKeeps(cfg: Config, m: Machine, id: SessionId)
    requires Inv(cfg, m)
    ensures Inv(cfg, m.(keys := m.keys - {id}, cache := m.cache - {id}, forgotten := m.forgotten + multiset{id}))
  {
    hide LeaseInv, CacheOk, KeysLeased, SessionsOk, AuthsOk, FirstsOk, TunOk, RetOk, SealsOk, SendsOk, PathsOk, NotesOk;
    ForgetTables(m.keys, m.cache, m.sessions, m.leases, m.recv, id);
  }

  // ---- Building sessions -----------------------------------------------------------------------

  lemma AppendGrows(ss: seq<Session>, s: Session)
    ensures Grown(ss, ss + [s])
  {
  }

  lemma BuildTables(cfg: Config, keys: Keys, cache: map<SessionId, nat>, ss: seq<Session>, l: Leases, id: SessionId, s: Session)
    requires CacheOk(cache, ss, l) && SessionsOk(ss)
    requires id in keys && id in l.forward && New(id, keys[id], Responder, cfg.capacity) == Ok(s)
    ensures CacheOk(cache[id := |ss|], ss + [s], l) && SessionsOk(ss + [s])
  {
  }

  lemma BuildSeals(ss: seq<Session>, s: Session, seals: seq<Seal>)
    requires SealsOk(ss, seals)
    ensures SealsOk(ss + [s], seals)
  {
  }

  lemma BuildRecv(recv: Receiving, ss: seq<Session>, s: Session, auths: seq<Auth>, firsts: seq<nat>, tun: seq<Tun>)
    requires RecvOk(recv, ss, auths, firsts, tun)
    ensures RecvOk(recv, ss + [s], auths, firsts, tun)
  {
    hide Names;
  }

  lemma BuildRet(l: Leases, ss: seq<Session>, s: Session, seals: seq<Seal>, ret: Returning)
    requires RetOk(l, ss, seals, ret)
    ensures RetOk(l, ss + [s], seals, ret)
  {
    hide LeasedTo;
  }

  lemma FindKeeps(cfg: Config, m: Machine, id: SessionId)
    requires Inv(cfg, m) && id in m.leases.forward
    ensures Inv(cfg, Find(cfg, m, id).0)
  {
    hide LeaseInv, CacheOk, KeysLeased, SessionsOk, AuthsOk, FirstsOk, TunOk, RecvOk, RetOk, SealsOk, SendsOk, PathsOk, NotesOk;
    if id !in m.cache && id in m.keys {
      var r := New(id, m.keys[id], Responder, cfg.capacity);
      if r.Ok? {
        var s := r.value;
        AppendGrows(m.sessions, s);
        BuildTables(cfg, m.keys, m.cache, m.sessions, m.leases, id, s);
        GrownAuths(m.sessions, m.sessions + [s], m.vault, m.auths);
        GrownFirsts(m.sessions, m.sessions + [s], m.auths, m.firsts);
        BuildRecv(m.recv, m.sessions, s, m.auths, m.firsts, m.tun);
        BuildRet(m.leases, m.sessions, s, m.seals, m.ret);
        BuildSeals(m.sessions, s, m.seals);
        GrownSends(cfg, m.leases, m.sessions, m.sessions + [s], m.seals, m.notes, m.sends);
      }
    }
  }

  lemma FoundIsCached(cfg: Config, m: Machine, id: SessionId)
    requires CacheOk(m.cache, m.sessions, m.leases)
    ensures var (m', i) := Find(cfg, m, id);
            && m'.recv == m.recv && m'.ret == m.ret && m'.leases == m.leases
            && (i.Some? ==> i.value < |m'.sessions| && m'.sessions[i.value].id == id)
  {
  }

  lemma DatagramKeeps(cfg: Config, m: Machine, wire: Bytes, src: Option<P.AddrPort>)
    requires Inv(cfg, m)
    ensures Inv(cfg, DoDatagram(cfg, m, wire, src))
  {
    hide LeaseInv, CacheOk, SessionsOk, AuthsOk, FirstsOk, TunOk, RetOk, SealsOk, SendsOk, PathsOk, NotesOk, Find, ParseHeader;
    if m.recv == Ready && ParseHeader(wire).Ok? {
      var id := ParseHeader(wire).value.id.session;
      if id in m.leases.forward {
        FindKeeps(cfg, m, id);
        FoundIsCached(cfg, m, id);
      } else {
        Unknown(cfg, m, id);
      }
    }
  }

  lemma Unknown(cfg: Config, m: Machine, id: SessionId)
    requires CacheOk(m.cache, m.sessions, m.leases) && KeysLeased(m.keys, m.leases, Ready) && id !in m.leases.forward
    ensures Find(cfg, m, id) == (m, None)
  {
  }

  lemma ChooseKeeps(cfg: Config, m: Machine)
    requires Inv(cfg, m)
    ensures Inv(cfg, DoChoose(cfg, m))
  {
    hide LeaseInv, CacheOk, KeysLeased, SessionsOk, AuthsOk, FirstsOk, TunOk, RecvOk, SealsOk, SendsOk, PathsOk, NotesOk, Find, ParseIPv4;
    if m.ret.Looked? {
      FindKeeps(cfg, m, m.ret.id);
      FoundIsCached(cfg, m, m.ret.id);
    }
  }

  // ---- Authentication and the window -----------------------------------------------------------

  lemma OpenAuth(ss: seq<Session>, vault: Vault, auths: seq<Auth>, a: Auth, wire: Bytes, p: Plain)
    requires AuthsOk(ss, vault, auths) && SessionsOk(ss) && a.inst < |ss|
    requires Authenticate(vault, ss[a.inst], wire) == Ok(p) && |wire| >= DATA_HEADER_SIZE
    requires a.id == ss[a.inst].id && a.number == p.number && a.payload == p.payload
    requires a.box == WireBox(ss[a.inst], wire, p.number) && Names(wire, a.id)
    ensures AuthsOk(ss, vault, auths + [a])
  {
    OpenedSaysSo(ss[a.inst], vault, a, wire, p);
    hide Authenticate, SaysSo, Names;
    AuthenticatedIsBoxed(vault, ss[a.inst], wire, p);
  }

  lemma OpenedSaysSo(s: Session, vault: Vault, a: Auth, wire: Bytes, p: Plain)
    requires Authenticate(vault, s, wire) == Ok(p) && |wire| >= DATA_HEADER_SIZE && s.role == Responder
    requires a.number == p.number && a.box == WireBox(s, wire, p.number) && Names(wire, a.id)
    ensures SaysSo(a)
  {
    hide ParseHeader;
    assert WireOf(a) == wire;
  }

  lemma OpenFirsts(ss: seq<Session>, auths: seq<Auth>, a: Auth, firsts: seq<nat>)
    requires FirstsOk(ss, auths, firsts)
    ensures FirstsOk(ss, auths + [a], firsts)
  {
  }

  lemma OpenTun(l: Leases, auths: seq<Auth>, a: Auth, firsts: seq<nat>, tun: seq<Tun>)
    requires TunOk(l, auths, firsts, tun)
    ensures TunOk(l, auths + [a], firsts, tun)
  {
    hide Filter;
  }

  lemma OpenNotes(notes: seq<P.Event>, noted: seq<nat>, clock: P.Time, auths: seq<Auth>, a: Auth)
    requires NotesOk(notes, noted, clock, auths) && a.at == clock
    ensures NotesOk(notes, noted, clock, auths + [a]) && Unrecorded(Opened(|auths|), notes, noted)
  {
  }

  lemma OpenKeeps(cfg: Config, m: Machine)
    requires Inv(cfg, m)
    ensures Inv(cfg, DoOpen(m))
  {
    hide LeaseInv, CacheOk, SessionsOk, AuthsOk, FirstsOk, TunOk, RetOk, SealsOk, SendsOk, PathsOk, NotesOk, Authenticate;
    if m.recv.Resolved? && m.recv.inst < |m.sessions| && |m.recv.wire| >= DATA_HEADER_SIZE {
      var s := m.sessions[m.recv.inst];
      var r := Authenticate(m.vault, s, m.recv.wire);
      if r.Ok? {
        var a := Auth(m.recv.inst, s.id, r.value.number, r.value.payload, m.recv.src, WireBox(s, m.recv.wire, r.value.number), m.clock);
        OpenAuth(m.sessions, m.vault, m.auths, a, m.recv.wire, r.value);
        OpenFirsts(m.sessions, m.auths, a, m.firsts);
        OpenTun(m.leases, m.auths, a, m.firsts, m.tun);
        OpenNotes(m.notes, m.noted, m.clock, m.auths, a);
      }
    }
  }

  lemma ObserveGrows(ss: seq<Session>, i: nat, n: U64)
    requires i < |ss| && SessionsOk(ss)
    ensures Grown(ss, ss[i := Observe(ss[i], n)]) && SessionsOk(ss[i := Observe(ss[i], n)])
  {
  }

  lemma ObserveSeals(ss: seq<Session>, i: nat, n: U64, seals: seq<Seal>)
    requires i < |ss| && SealsOk(ss, seals)
    ensures SealsOk(ss[i := Observe(ss[i], n)], seals)
  {
  }

  lemma ObserveRet(l: Leases, ss: seq<Session>, i: nat, n: U64, seals: seq<Seal>, ret: Returning)
    requires i < |ss| && RetOk(l, ss, seals, ret)
    ensures RetOk(l, ss[i := Observe(ss[i], n)], seals, ret)
  {
    hide LeasedTo;
  }

  /** A first copy carries a number its session had not accepted: no earlier first copy has it. */
  lemma JudgeFirsts(ss: seq<Session>, auths: seq<Auth>, firsts: seq<nat>, k: nat)
    requires FirstsOk(ss, auths, firsts) && SessionsOk(ss) && k < |auths| && auths[k].inst < |ss|
    requires Replay.Decide(ss[auths[k].inst].window, auths[k].number) == Replay.FirstCopy
    ensures FirstsOk(ss[auths[k].inst := Observe(ss[auths[k].inst], auths[k].number)], auths, firsts + [k])
  {
    var a := auths[k];
    assert a.number !in ss[a.inst].window.accepted;
  }

  lemma JudgeTun(l: Leases, auths: seq<Auth>, firsts: seq<nat>, k: nat, tun: seq<Tun>)
    requires TunOk(l, auths, firsts, tun)
    ensures TunOk(l, auths, firsts + [k], tun) && LatestIsUnsent(firsts + [k], tun)
  {
    hide Filter;
  }

  lemma JudgeKeeps(cfg: Config, m: Machine)
    requires Inv(cfg, m)
    ensures Inv(cfg, DoJudge(m))
  {
    hide LeaseInv, CacheOk, SessionsOk, AuthsOk, FirstsOk, TunOk, RetOk, SealsOk, SendsOk, PathsOk, NotesOk, LatestIsUnsent, Replay.Decide, Replay.Observe;
    if m.recv.Opened? && m.recv.auth < |m.auths| && m.auths[m.recv.auth].inst < |m.sessions| {
      var k := m.recv.auth;
      var a := m.auths[k];
      var ss := m.sessions[a.inst := Observe(m.sessions[a.inst], a.number)];
      ObserveGrows(m.sessions, a.inst, a.number);
      GrownCache(m.cache, m.sessions, ss, m.leases);
      GrownAuths(m.sessions, ss, m.vault, m.auths);
      GrownFirsts(m.sessions, ss, m.auths, m.firsts);
      ObserveRet(m.leases, m.sessions, a.inst, a.number, m.seals, m.ret);
      ObserveSeals(m.sessions, a.inst, a.number, m.seals);
      GrownSends(cfg, m.leases, m.sessions, ss, m.seals, m.notes, m.sends);
      if Replay.Decide(m.sessions[a.inst].window, a.number) == Replay.FirstCopy {
        JudgeFirsts(m.sessions, m.auths, m.firsts, k);
        JudgeTun(m.leases, m.auths, m.firsts, k, m.tun);
        LatestIs(m.firsts, k);
      }
    }
  }

  lemma LatestIs(firsts: seq<nat>, k: nat)
    ensures (firsts + [k])[|firsts + [k]| - 1] == k
  {
  }

  // ---- Recording paths and letting packets out -------------------------------------------------

  lemma NotePaths(cfg: Config, paths: P.Paths, notes: seq<P.Event>, clock: P.Time, id: SessionId, ep: P.AddrPort)
    requires PathsOk(cfg, paths, notes, clock)
    ensures PathsOk(cfg, P.RecordState(paths, id, ep, clock), notes + [P.Seen(id, ep, clock)], clock)
  {
    assert (notes + [P.Seen(id, ep, clock)])[..|notes|] == notes;
  }

  /** The arrival just judged is recorded after all earlier ones. */
  lemma NoteIsOwn(notes: seq<P.Event>, noted: seq<nat>, clock: P.Time, auths: seq<Auth>, k: nat, first: bool)
    requires NotesOk(notes, noted, clock, auths) && Unrecorded(Judged(k, first), notes, noted)
    requires k < |auths| && auths[k].src.Some?
    ensures NotesOk(notes + [P.Seen(auths[k].id, auths[k].src.value, clock)], noted + [k], clock, auths)
  {
  }

  lemma NotesGrow(cfg: Config, l: Leases, ss: seq<Session>, seals: seq<Seal>, notes: seq<P.Event>, ev: P.Event, sends: seq<Send>)
    requires SendsOk(cfg, l, ss, seals, notes, sends)
    ensures SendsOk(cfg, l, ss, seals, notes + [ev], sends)
  {
    hide LeasedTo, PacketWire;
    forall z | 0 <= z < |sends| ensures SendOk(cfg, l, ss, seals, notes + [ev], sends[z]) {
      var s := sends[z];
      assert SendOk(cfg, l, ss, seals, notes, s);
      var e :| 0 <= e < |notes| && notes[e].Seen? && notes[e].id == s.id && notes[e].addr == s.to && s.at - cfg.ttl < notes[e].at <= s.at;
      assert (notes + [ev])[e] == notes[e];
    }
  }

  lemma NoteKeeps(cfg: Config, m: Machine)
    requires Inv(cfg, m)
    ensures Inv(cfg, DoNote(m))
  {
    hide LeaseInv, CacheOk, SessionsOk, AuthsOk, FirstsOk, TunOk, RetOk, SealsOk, SendsOk, PathsOk, NotesOk, LatestIsUnsent, P.RecordState;
    if m.recv.Judged? && m.recv.auth < |m.auths| {
      var a := m.auths[m.recv.auth];
      if a.src.Some? {
        NotePaths(cfg, m.paths, m.notes, m.clock, a.id, a.src.value);
        NoteIsOwn(m.notes, m.noted, m.clock, m.auths, m.recv.auth, m.recv.first);
        NotesGrow(cfg, m.leases, m.sessions, m.seals, m.notes, P.Seen(a.id, a.src.value, m.clock), m.sends);
      }
    }
  }

  lemma OutTun(l: Leases, auths: seq<Auth>, firsts: seq<nat>, tun: seq<Tun>, t: Tun)
    requires TunOk(l, auths, firsts, tun) && LatestIsUnsent(firsts, tun)
    requires t.first == |firsts| - 1 && firsts[t.first] < |auths|
    requires var a := auths[firsts[t.first]]; t.packet == a.payload && Filter(l, a.id, a.payload) == Forward
    ensures TunOk(l, auths, firsts, tun + [t])
  {
    hide Filter;
  }

  lemma LetOutKeeps(cfg: Config, m: Machine, ok: bool)
    requires Inv(cfg, m)
    ensures Inv(cfg, DoLetOut(m, ok))
  {
    hide LeaseInv, CacheOk, SessionsOk, AuthsOk, FirstsOk, TunOk, RetOk, SealsOk, SendsOk, PathsOk, NotesOk, Filter;
    if m.recv == Leaving && m.firsts != [] && m.firsts[|m.firsts| - 1] < |m.auths| {
      var a := m.auths[m.firsts[|m.firsts| - 1]];
      if ok && Filter(m.leases, a.id, a.payload) == Forward {
        OutTun(m.leases, m.auths, m.firsts, m.tun, Tun(|m.firsts| - 1, a.payload));
      }
    }
  }

  // ---- The return loop -------------------------------------------------------------------------

  lemma PacketKeeps(cfg: Config, m: Machine, packet: Bytes)
    requires Inv(cfg, m)
    ensures Inv(cfg, DoPacket(m, packet))
  {
    hide CacheOk, KeysLeased, SessionsOk, AuthsOk, FirstsOk, TunOk, RecvOk, SealsOk, SendsOk, PathsOk, NotesOk, Partition, ParseIPv4;
  }

  lemma NumberSessions(ss: seq<Session>, i: nat)
    requires i < |ss| && SessionsOk(ss)
    ensures Grown(ss, ss[i := Assign(ss[i])]) && SessionsOk(ss[i := Assign(ss[i])])
  {
  }

  lemma NumberSeals(ss: seq<Session>, i: nat, seals: seq<Seal>)
    requires i < |ss| && SealsOk(ss, seals) && ss[i].next + 1 < TWO_64
    ensures SealsOk(ss[i := Assign(ss[i])], seals)
    ensures forall z | 0 <= z < |seals| && seals[z].inst == i :: seals[z].number < Assign(ss[i]).next
  {
  }

  lemma NumberKeeps(cfg: Config, m: Machine)
    requires Inv(cfg, m)
    requires m.ret.Chosen? && Takes(m, Number, m.ret.inst) ==> m.sessions[m.ret.inst].next + 1 < TWO_64
    ensures Inv(cfg, DoNumber(m))
  {
    hide LeaseInv, CacheOk, KeysLeased, SessionsOk, AuthsOk, FirstsOk, TunOk, SealsOk, SendsOk, PathsOk, NotesOk, LeasedTo;
    if m.ret.Chosen? && m.ret.inst < |m.sessions| && |m.ret.packet| <= MAX_PAYLOAD {
      var i := m.ret.inst;
      var ss := m.sessions[i := Assign(m.sessions[i])];
      NumberSessions(m.sessions, i);
      NumberSeals(m.sessions, i, m.seals);
      GrownCache(m.cache, m.sessions, ss, m.leases);
      GrownAuths(m.sessions, ss, m.vault, m.auths);
      GrownFirsts(m.sessions, ss, m.auths, m.firsts);
      GrownSends(cfg, m.leases, m.sessions, ss, m.seals, m.notes, m.sends);
    }
  }

  /** Sealing a reply uses the gateway's direction, so no authenticated arrival is disturbed. */
  lemma SealAuths(enc: Cipher, ss: seq<Session>, vault: Vault, auths: seq<Auth>, i: nat, n: U64, packet: Bytes)
    requires AuthsOk(ss, vault, auths) && SessionsOk(ss) && i < |ss|
    ensures AuthsOk(ss, vault[PacketBox(enc, ss[i], n, packet) := packet], auths)
  {
    hide SaysSo;
    var box := PacketBox(enc, ss[i], n, packet);
    forall k | 0 <= k < |auths| ensures auths[k].box != box {
      NonceInjective(ToGateway, auths[k].number, ToClient, n);
    }
  }

  lemma SealLog(ss: seq<Session>, seals: seq<Seal>, i: nat, n: U64, packet: Bytes)
    requires SealsOk(ss, seals) && i < |ss| && ss[i].next == n && n > 0
    requires forall z | 0 <= z < |seals| && seals[z].inst == i :: seals[z].number < n
    ensures SealsOk(ss, seals + [Seal(i, n, packet)])
  {
  }

  lemma SealSends(cfg: Config, l: Leases, ss: seq<Session>, seals: seq<Seal>, z: Seal, notes: seq<P.Event>, sends: seq<Send>)
    requires SendsOk(cfg, l, ss, seals, notes, sends)
    ensures SendsOk(cfg, l, ss, seals + [z], notes, sends)
  {
    hide LeasedTo, PacketWire, SeenWithin;
    forall y | 0 <= y < |sends| ensures SendOk(cfg, l, ss, seals + [z], notes, sends[y]) {
      assert SendOk(cfg, l, ss, seals, notes, sends[y]);
    }
  }

  lemma SealKeeps(cfg: Config, m: Machine)
    requires Inv(cfg, m)
    ensures Inv(cfg, DoSeal(cfg, m))
  {
    hide LeaseInv, CacheOk, KeysLeased, SessionsOk, AuthsOk, FirstsOk, TunOk, RecvOk, SealsOk, SendsOk, PathsOk, NotesOk, LeasedTo, PacketBox;
    if m.ret.Numbered? && m.ret.inst < |m.sessions| {
      var r := m.ret;
      SealAuths(cfg.enc, m.sessions, m.vault, m.auths, r.inst, r.number, r.packet);
      SealLog(m.sessions, m.seals, r.inst, r.number, r.packet);
      SealSends(cfg, m.leases, m.sessions, m.seals, Seal(r.inst, r.number, r.packet), m.notes, m.sends);
    }
  }

  /** Each copy goes to an endpoint the path set called fresh, hence seen within the time to live. */
  lemma {:induction false} CopiesOk(cfg: Config, l: Leases, ss: seq<Session>, seals: seq<Seal>, notes: seq<P.Event>, s: Send,
                                    dsts: seq<P.AddrPort>, accepts: P.AddrPort -> bool)
    requires LeasedTo(l, s.id, s.packet) && s.inst < |ss| && ss[s.inst].id == s.id && Seal(s.inst, s.number, s.packet) in seals
    requires s.datagram == PacketWire(cfg.enc, ss[s.inst], s.number, s.packet)
    requires forall ep | ep in dsts :: SeenWithin(notes, s.id, ep, s.at, cfg.ttl)
    ensures SendsOk(cfg, l, ss, seals, notes, Copies(s, dsts, accepts))
  {
    hide LeasedTo, PacketWire, SeenWithin;
    if dsts != [] {
      var front, ep := dsts[..|dsts| - 1], dsts[|dsts| - 1];
      CopiesOk(cfg, l, ss, seals, notes, s, front, accepts);
      assert SendOk(cfg, l, ss, seals, notes, s.(to := ep));
    }
  }

  lemma {:induction false} LatestIsSeen(notes: seq<P.Event>, id: SessionId, a: P.AddrPort, at: P.Time, ttl: int)
    requires P.Latest(notes, id, a).Some? && P.Latest(notes, id, a).value > at - ttl && P.Monotone(notes, at)
    ensures SeenWithin(notes, id, a, at, ttl)
  {
    var n := |notes| - 1;
    if notes[n].Seen? && notes[n].id == id && notes[n].addr == a {
      assert at - ttl < notes[n].at <= at;
    } else {
      LatestIsSeen(notes[..n], id, a, at, ttl);
      var e :| 0 <= e < n && notes[..n][e].Seen? && notes[..n][e].id == id && notes[..n][e].addr == a && at - ttl < notes[..n][e].at <= at;
      assert notes[e] == notes[..n][e];
    }
  }

  lemma FreshIsSeen(cfg: Config, paths: P.Paths, notes: seq<P.Event>, clock: P.Time, id: SessionId, ep: P.AddrPort)
    requires PathsOk(cfg, paths, notes, clock) && ep in P.FreshIn(paths, id, clock - cfg.ttl)
    ensures SeenWithin(notes, id, ep, clock, cfg.ttl)
  {
    P.FreshUnderClock(cfg.ttl, notes, clock, id, ep);
    LatestIsSeen(notes, id, ep, clock, cfg.ttl);
  }

  lemma DeliverPaths(cfg: Config, paths: P.Paths, notes: seq<P.Event>, clock: P.Time, id: SessionId)
    requires PathsOk(cfg, paths, notes, clock)
    ensures PathsOk(cfg, P.PruneState(paths, id, clock - cfg.ttl), notes + [P.Asked(id, clock)], clock)
  {
    assert (notes + [P.Asked(id, clock)])[..|notes|] == notes;
  }

  lemma DeliverNotes(notes: seq<P.Event>, noted: seq<nat>, clock: P.Time, auths: seq<Auth>, recv: Receiving, id: SessionId)
    requires NotesOk(notes, noted, clock, auths) && Unrecorded(recv, notes, noted)
    ensures NotesOk(notes + [P.Asked(id, clock)], noted + [|auths|], clock, auths)
    ensures Unrecorded(recv, notes + [P.Asked(id, clock)], noted + [|auths|])
  {
  }

  lemma SendsConcat(cfg: Config, l: Leases, ss: seq<Session>, seals: seq<Seal>, notes: seq<P.Event>, a: seq<Send>, b: seq<Send>)
    requires SendsOk(cfg, l, ss, seals, notes, a) && SendsOk(cfg, l, ss, seals, notes, b)
    ensures SendsOk(cfg, l, ss, seals, notes, a + b)
  {
    hide SendOk;
  }

  lemma DeliverKeeps(cfg: Config, m: Machine, accepts: P.AddrPort -> bool)
    requires Inv(cfg, m)
    ensures Inv(cfg, DoDeliver(cfg, m, accepts))
  {
    hide LeaseInv, CacheOk, KeysLeased, SessionsOk, AuthsOk, FirstsOk, TunOk, RecvOk, SealsOk, SendsOk, PathsOk, NotesOk, LeasedTo, PacketWire;
    hide P.PruneState, P.FreshIn, Copies, SeenWithin;
    if m.ret.Sealed? && m.ret.inst < |m.sessions| {
      var r := m.ret;
      var dsts := P.FreshIn(m.paths, r.id, m.clock - cfg.ttl);
      var s := Send(r.id, r.inst, r.number, r.packet, PacketWire(cfg.enc, m.sessions[r.inst], r.number, r.packet),
                    P.AddrPort([], 0), m.clock);
      forall ep | ep in dsts ensures SeenWithin(m.notes, r.id, ep, m.clock, cfg.ttl) {
        FreshIsSeen(cfg, m.paths, m.notes, m.clock, r.id, ep);
      }
      CopiesOk(cfg, m.leases, m.sessions, m.seals, m.notes, s, dsts, accepts);
      SendsConcat(cfg, m.leases, m.sessions, m.seals, m.notes, m.sends, Copies(s, dsts, accepts));
      NotesGrow(cfg, m.leases, m.sessions, m.seals, m.notes, P.Asked(r.id, m.clock), m.sends + Copies(s, dsts, accepts));
      DeliverPaths(cfg, m.paths, m.notes, m.clock, r.id);
      DeliverNotes(m.notes, m.noted, m.clock, m.auths, m.recv, r.id);
    }
  }

  lemma TickKeeps(cfg: Config, m: Machine, now: P.Time)
    requires Inv(cfg, m) && now >= m.clock
    ensures Inv(cfg, m.(clock := now))
  {
    hide LeaseInv, CacheOk, KeysLeased, SessionsOk, AuthsOk, FirstsOk, TunOk, RecvOk, RetOk, SealsOk, SendsOk;
  }

  lemma OutsideKeeps(cfg: Config, m: Machine, box: Box, plain: Bytes)
    requires Inv(cfg, m) && box !in m.vault
    ensures Inv(cfg, m.(vault := m.vault[box := plain]))
  {
    hide LeaseInv, CacheOk, KeysLeased, SessionsOk, FirstsOk, TunOk, RecvOk, RetOk, SealsOk, SendsOk, PathsOk, NotesOk, SaysSo;
  }

  // ---- Every run -------------------------------------------------------------------------------

  /** The action takes a reply number from session `i`. */
  predicate Takes(m: Machine, ev: Event, i: nat) {
    ev.Number? && m.ret.Chosen? && m.ret.inst == i && i < |m.sessions| && |m.ret.packet| <= MAX_PAYLOAD
  }

  /** Every action keeps the invariant, as long as the session's packet numbers have not run out. */
  lemma StepKeeps(cfg: Config, m: Machine, ev: Event)
    requires Inv(cfg, m)
    requires m.ret.Chosen? && Takes(m, ev, m.ret.inst) ==> m.sessions[m.ret.inst].next + 1 < TWO_64
    ensures Inv(cfg, Step(cfg, m, ev))
  {
    hide DoHello, DoLease, DoUnwind, DoDatagram, DoOpen, DoJudge, DoNote, DoLetOut, DoPacket, DoChoose, DoNumber, DoSeal, DoDeliver;
    hide Inv;
    match ev
    case Tick(now) => if now >= m.clock { TickKeeps(cfg, m, now); }
    case Hello(id, key) => HelloKeeps(cfg, m, id, key);
    case Lease(fits) => LeaseKeeps(cfg, m, fits);
    case Unwind => UnwindKeeps(cfg, m);
    case Datagram(wire, src) => DatagramKeeps(cfg, m, wire, src);
    case Open => OpenKeeps(cfg, m);
    case Judge => JudgeKeeps(cfg, m);
    case Note => NoteKeeps(cfg, m);
    case LetOut(ok) => LetOutKeeps(cfg, m, ok);
    case Packet(packet) => PacketKeeps(cfg, m, packet);
    case Choose => ChooseKeeps(cfg, m);
    case Number => NumberKeeps(cfg, m);
    case SealIt => SealKeeps(cfg, m);
    case Deliver(accepts) => DeliverKeeps(cfg, m, accepts);
    case Forget(id) => ForgetKeeps(cfg, m, id);
    case Outside(box, plain) => if box !in m.vault { OutsideKeeps(cfg, m, box, plain); }
  }

  /** How many reply numbers a run takes from session `i`. */
  function Taken(cfg: Config, hosts: seq<Addr>, evs: seq<Event>, i: nat): nat {
    if evs == [] then 0
    else
      var front := evs[..|evs| - 1];
      Taken(cfg, hosts, front, i) + if Takes(Exec(cfg, hosts, front), evs[|evs| - 1], i) then 1 else 0
  }

  /** No session takes 2^64 reply numbers. */
  ghost predicate InBudget(cfg: Config, hosts: seq<Addr>, evs: seq<Event>) {
    forall i: nat :: Taken(cfg, hosts, evs, i) < TWO_64
  }

  lemma {:induction false} TakenGrows(cfg: Config, hosts: seq<Addr>, evs: seq<Event>, n: nat, i: nat)
    requires n <= |evs|
    ensures Taken(cfg, hosts, evs[..n], i) <= Taken(cfg, hosts, evs, i)
  {
    hide Exec, Takes;
    if n == |evs| {
      assert evs[..n] == evs;
    } else {
      assert evs[..|evs| - 1][..n] == evs[..n];
      TakenGrows(cfg, hosts, evs[..|evs| - 1], n, i);
    }
  }

  lemma PrefixInBudget(cfg: Config, hosts: seq<Addr>, evs: seq<Event>, n: nat)
    requires n <= |evs| && InBudget(cfg, hosts, evs)
    ensures InBudget(cfg, hosts, evs[..n])
  {
    hide Taken;
    forall i: nat ensures Taken(cfg, hosts, evs[..n], i) < TWO_64 {
      TakenGrows(cfg, hosts, evs, n, i);
    }
  }

  lemma FindNext(cfg: Config, m: Machine, id: SessionId, i: nat)
    ensures var ss := Find(cfg, m, id).0.sessions;
            && |m.sessions| <= |ss|
            && (i < |m.sessions| ==> ss[i].next == m.sessions[i].next)
            && (|m.sessions| <= i < |ss| ==> ss[i].next == 0)
  {
  }

  /** An action moves only the counter of the session it takes a number from; new sessions start at
      zero. */
  lemma StepNext(cfg: Config, m: Machine, ev: Event, i: nat)
    ensures var ss := Step(cfg, m, ev).sessions;
            && |m.sessions| <= |ss|
            && (i < |m.sessions| ==> ss[i].next == if Takes(m, ev, i) then Assign(m.sessions[i]).next else m.sessions[i].next)
            && (|m.sessions| <= i < |ss| ==> ss[i].next == 0)
  {
    hide DoHello, DoLease, DoUnwind, DoOpen, DoNote, DoLetOut, DoSeal, DoPacket, DoDeliver, Assign;
    hide Find, ParseHeader;
    match ev
    case Datagram(wire, src) =>
      if ParseHeader(wire).Ok? {
        FindNext(cfg, m, ParseHeader(wire).value.id.session, i);
      }
    case Choose =>
      if m.ret.Looked? {
        FindNext(cfg, m, m.ret.id, i);
      }
    case Judge =>
    case Number =>
    case SealIt => SealFrame(cfg, m);
    case Packet(packet) => PacketFrame(m, packet);
    case Deliver(accepts) => DeliverFrame(cfg, m, accepts);
    case _ =>
      hide Step;
      HandshakesLeaveSessions(cfg, m, ev);
  }

  /** Within its budget a session's counter is the number of replies it has taken. */
  lemma {:induction false} ExecNext(cfg: Config, hosts: seq<Addr>, evs: seq<Event>, i: nat)
    requires Taken(cfg, hosts, evs, i) < TWO_64
    ensures var ss := Exec(cfg, hosts, evs).sessions;
            if i < |ss| then ss[i].next == Taken(cfg, hosts, evs, i) else Taken(cfg, hosts, evs, i) == 0
  {
    hide Step, Takes;
    if evs != [] {
      var front, ev := evs[..|evs| - 1], evs[|evs| - 1];
      ExecNext(cfg, hosts, front, i);
      StepNext(cfg, Exec(cfg, hosts, front), ev, i);
      OnlyKnown(Exec(cfg, hosts, front), ev, i);
    }
  }

  lemma OnlyKnown(m: Machine, ev: Event, i: nat)
    ensures Takes(m, ev, i) ==> i < |m.sessions|
  {
  }

  lemma NoTraffic(ss: seq<Session>, vault: Vault, auths: seq<Auth>, firsts: seq<nat>, tun: seq<Tun>, l: Leases)
    requires auths == [] && firsts == [] && tun == []
    ensures AuthsOk(ss, vault, auths) && FirstsOk(ss, auths, firsts) && TunOk(l, auths, firsts, tun)
  {
    hide Filter;
  }

  lemma NoReplies(cfg: Config, l: Leases, ss: seq<Session>, seals: seq<Seal>, sends: seq<Send>, notes: seq<P.Event>)
    requires seals == [] && sends == []
    ensures SealsOk(ss, seals) && SendsOk(cfg, l, ss, seals, notes, sends)
  {
    hide SendOk;
  }

  lemma NoPaths(cfg: Config, notes: seq<P.Event>, noted: seq<nat>, auths: seq<Auth>)
    requires notes == [] && noted == [] && auths == []
    ensures PathsOk(cfg, map[], notes, 0) && NotesOk(notes, noted, 0, auths)
  {
  }

  lemma AllFree(hosts: seq<Addr>)
    requires Distinct(hosts)
    ensures LeaseInv(Elements(hosts), NoLeases(hosts))
  {
  }

  lemma StartInv(cfg: Config, hosts: seq<Addr>)
    requires Distinct(hosts) && cfg.pool == Elements(hosts)
    ensures Inv(cfg, Start(hosts))
  {
    hide LeaseInv, AuthsOk, FirstsOk, TunOk, SealsOk, SendsOk, PathsOk, NotesOk;
    AllFree(hosts);
    NoTraffic([], map[], [], [], [], NoLeases(hosts));
    NoReplies(cfg, NoLeases(hosts), [], [], [], []);
    NoPaths(cfg, [], [], []);
  }

  ghost predicate Pool(cfg: Config, hosts: seq<Addr>) {
    Distinct(hosts) && cfg.pool == Elements(hosts)
  }

  /** Every interleaving in which no session takes 2^64 reply numbers ends in a state that satisfies the
      invariant. */
  lemma {:induction false} ExecInv(cfg: Config, hosts: seq<Addr>, evs: seq<Event>)
    requires Pool(cfg, hosts) && InBudget(cfg, hosts, evs)
    ensures Inv(cfg, Exec(cfg, hosts, evs))
  {
    hide Inv, Step;
    if evs == [] {
      StartInv(cfg, hosts);
    } else {
      var front, ev := evs[..|evs| - 1], evs[|evs| - 1];
      PrefixInBudget(cfg, hosts, evs, |evs| - 1);
      ExecInv(cfg, hosts, front);
      NumberLeft(cfg, hosts, evs);
      StepKeeps(cfg, Exec(cfg, hosts, front), ev);
    }
  }

  /** Within budget the last action of a run finds a number to take. */
  lemma NumberLeft(cfg: Config, hosts: seq<Addr>, evs: seq<Event>)
    requires evs != [] && InBudget(cfg, hosts, evs)
    ensures var m, ev := Exec(cfg, hosts, evs[..|evs| - 1]), evs[|evs| - 1];
            m.ret.Chosen? && Takes(m, ev, m.ret.inst) ==> m.sessions[m.ret.inst].next + 1 < TWO_64
  {
    hide Exec;
    var m, ev := Exec(cfg, hosts, evs[..|evs| - 1]), evs[|evs| - 1];
    if m.ret.Chosen? && Takes(m, ev, m.ret.inst) {
      assert Taken(cfg, hosts, evs, m.ret.inst) < TWO_64;
      ExecNext(cfg, hosts, evs[..|evs| - 1], m.ret.inst);
    }
  }

  /** `m` is where some run over the hosts of the pool ends within budget. */
  ghost predicate Reachable(cfg: Config, m: Machine) {
    exists hosts: seq<Addr>, evs: seq<Event> :: Pool(cfg, hosts) && InBudget(cfg, hosts, evs) && m == Exec(cfg, hosts, evs)
  }

  lemma ReachableInv(cfg: Config, m: Machine)
    requires Reachable(cfg, m)
    ensures Inv(cfg, m)
  {
    hide Inv;
    var hosts: seq<Addr>, evs: seq<Event> :| Pool(cfg, hosts) && InBudget(cfg, hosts, evs) && m == Exec(cfg, hosts, evs);
    ExecInv(cfg, hosts, evs);
  }

  // ---- Keys of cached sessions -----------------------------------------------------------------

  /** Cached sessions are under the keys registered for their ids. */
  ghost predicate Keyed(keys: Keys, cache: map<SessionId, nat>, sessions: seq<Session>) {
    forall id | id in cache :: id in keys && cache[id] < |sessions| && sessions[cache[id]].key == keys[id]
  }

  /** A registration that is being unwound has no lease, so the return loop cannot have used it. */
  ghost predicate Unused(recv: Receiving, leases: Leases) {
    recv.Refusing? ==> recv.id !in leases.forward
  }

  lemma FindKeyed(cfg: Config, m: Machine, id: SessionId)
    requires Keyed(m.keys, m.cache, m.sessions)
    ensures var m' := Find(cfg, m, id).0; Keyed(m.keys, m'.cache, m'.sessions)
  {
  }

  lemma SameKeys(keys: Keys, cache: map<SessionId, nat>, ss: seq<Session>, i: nat, s: Session)
    requires Keyed(keys, cache, ss) && i < |ss| && s.key == ss[i].key
    ensures Keyed(keys, cache, ss[i := s])
  {
  }

  /** Cached sessions keyed, and no registration in use while it is being unwound. */
  ghost predicate KeyedOk(m: Machine) {
    Keyed(m.keys, m.cache, m.sessions) && Unused(m.recv, m.leases)
  }

  lemma HelloKeyed(m: Machine, id: SessionId, key: Bytes)
    requires KeyedOk(m)
    ensures KeyedOk(DoHello(m, id, key))
  {
  }

  lemma LeaseKeyed(m: Machine)
    requires KeyedOk(m)
    ensures KeyedOk(DoLease(m, true))
  {
  }

  lemma UnwindKeyed(m: Machine)
    requires KeyedOk(m) && CacheOk(m.cache, m.sessions, m.leases)
    ensures KeyedOk(DoUnwind(m))
  {
  }

  lemma JudgeKeyed(m: Machine)
    requires Keyed(m.keys, m.cache, m.sessions)
    ensures Keyed(m.keys, m.cache, DoJudge(m).sessions)
  {
    hide Keyed, Replay.Decide;
    if m.recv.Opened? && m.recv.auth < |m.auths| && m.auths[m.recv.auth].inst < |m.sessions| {
      var a := m.auths[m.recv.auth];
      SameKeys(m.keys, m.cache, m.sessions, a.inst, Observe(m.sessions[a.inst], a.number));
    }
  }

  lemma NumberKeyed(m: Machine)
    requires Keyed(m.keys, m.cache, m.sessions)
    ensures Keyed(m.keys, m.cache, DoNumber(m).sessions)
  {
    hide Keyed;
    if m.ret.Chosen? && m.ret.inst < |m.sessions| {
      SameKeys(m.keys, m.cache, m.sessions, m.ret.inst, Assign(m.sessions[m.ret.inst]));
    }
  }

  lemma DatagramKeyed(cfg: Config, m: Machine, wire: Bytes, src: Option<P.AddrPort>)
    requires Keyed(m.keys, m.cache, m.sessions)
    ensures var m' := DoDatagram(cfg, m, wire, src); Keyed(m.keys, m'.cache, m'.sessions)
  {
    hide Keyed, Find, ParseHeader;
    if ParseHeader(wire).Ok? {
      FindKeyed(cfg, m, ParseHeader(wire).value.id.session);
    }
  }

  lemma ChooseKeyed(cfg: Config, m: Machine)
    requires Keyed(m.keys, m.cache, m.sessions)
    ensures var m' := DoChoose(cfg, m); Keyed(m.keys, m'.cache, m'.sessions)
  {
    hide Keyed, Find;
    if m.ret.Looked? {
      FindKeyed(cfg, m, m.ret.id);
    }
  }

  /** Traffic keeps the cached sessions under their keys. */
  lemma TrafficKeyed(cfg: Config, m: Machine, ev: Event)
    requires Keyed(m.keys, m.cache, m.sessions) && !ev.Hello? && !ev.Lease? && !ev.Unwind? && !ev.Forget?
    ensures var m' := Step(cfg, m, ev); Keyed(m.keys, m'.cache, m'.sessions)
  {
    hide Keyed;
    hide DoDatagram, DoOpen, DoJudge, DoNote, DoLetOut, DoPacket, DoChoose, DoNumber, DoSeal, DoDeliver;
    match ev
    case Datagram(wire, src) => DatagramKeyed(cfg, m, wire, src);
    case Choose => ChooseKeyed(cfg, m);
    case Judge => JudgeKeyed(m); JudgeFrame(m);
    case Number => NumberKeyed(m); NumberFrame(m);
    case SealIt => SealFrame(cfg, m);
    case Packet(packet) => PacketFrame(m, packet);
    case Deliver(accepts) => DeliverFrame(cfg, m, accepts);
    case Open => OpenFrame(m);
    case Note => NoteFrame(m);
    case LetOut(ok) => LetOutFrame(m, ok);
    case Tick(_) =>
    case Outside(_, _) =>
  }

  lemma StepKeyed(cfg: Config, m: Machine, ev: Event)
    requires KeyedOk(m) && CacheOk(m.cache, m.sessions, m.leases) && (ev.Lease? ==> ev.fits)
    ensures KeyedOk(Step(cfg, m, ev))
  {
    hide DoHello, DoLease, DoUnwind;
    match ev
    case Hello(id, key) => HelloKeyed(m, id, key);
    case Lease(_) => LeaseKeyed(m);
    case Unwind => UnwindKeyed(m);
    case Forget(_) =>
    case _ =>
      hide Step, Keyed;
      TrafficKeyed(cfg, m, ev);
      TrafficLeavesKeys(cfg, m, ev);
  }

  /** Every answer of the run can be encoded. */
  ghost predicate Answerable(evs: seq<Event>) {
    forall i | 0 <= i < |evs| && evs[i].Lease? :: evs[i].fits
  }

  lemma {:induction false} ExecKeyed(cfg: Config, hosts: seq<Addr>, evs: seq<Event>)
    requires Pool(cfg, hosts) && InBudget(cfg, hosts, evs) && Answerable(evs)
    ensures KeyedOk(Exec(cfg, hosts, evs))
  {
    hide Step;
    if evs != [] {
      var front, ev := evs[..|evs| - 1], evs[|evs| - 1];
      PrefixInBudget(cfg, hosts, evs, |evs| - 1);
      ExecKeyed(cfg, hosts, front);
      ExecInv(cfg, hosts, front);
      hide KeyedOk;
      StepKeyed(cfg, Exec(cfg, hosts, front), ev);
    }
  }

  /** Unwinding a registration leaves the cached sessions keyed exactly when none was built for it. */
  lemma UnwindKeepsExactly(cfg: Config, m: Machine)
    requires Inv(cfg, m) && Keyed(m.keys, m.cache, m.sessions) && m.recv.Refusing?
    ensures var m' := Step(cfg, m, Unwind); Keyed(m'.keys, m'.cache, m'.sessions) <==> m.recv.id !in m.cache
  {
  }

  // ---- What the runs guarantee -----------------------------------------------------------------

  /** At every moment the cached ids are leased and point at sessions of their own, and every
      registered id has a lease unless its handshake is still under way. If every answer can be encoded,
      cached ids are also registered, under the key of their session. */
  lemma TablesAgree(cfg: Config, hosts: seq<Addr>, evs: seq<Event>, id: SessionId)
    requires Pool(cfg, hosts) && InBudget(cfg, hosts, evs)
    ensures var m := Exec(cfg, hosts, evs);
            && (id in m.cache ==> m.cache[id] < |m.sessions| && m.sessions[m.cache[id]].id == id && id in m.leases.forward)
            && (id in m.keys && id !in m.leases.forward ==> m.recv == Registered(id) || m.recv == Refusing(id))
            && (Answerable(evs) && id in m.cache ==> id in m.keys && m.sessions[m.cache[id]].key == m.keys[id])
  {
    ExecInv(cfg, hosts, evs);
    if Answerable(evs) {
      ExecKeyed(cfg, hosts, evs);
    }
  }

  /** Every arrival was sealed under the key of its session in the client's direction. */
  lemma ArrivalIsBoxed(cfg: Config, m: Machine, k: nat)
    requires Inv(cfg, m) && k < |m.auths|
    ensures var a := m.auths[k];
            && a.inst < |m.sessions| && a.box.key == m.sessions[a.inst].key && a.id == m.sessions[a.inst].id
            && a.box.nonce == Nonce(ToGateway, a.number) && a.box in m.vault && m.vault[a.box] == a.payload
  {
  }

  /** Every packet in the tunnel is the payload of an authenticated first copy, sealed under the key
      of its session in the client's direction, and its source is that session's own lease. */
  lemma TunnelledIsFirstCopy(cfg: Config, m: Machine, t: nat)
    requires Reachable(cfg, m) && t < |m.tun|
    ensures m.tun[t].first < |m.firsts| && m.firsts[m.tun[t].first] < |m.auths|
    ensures var a := m.auths[m.firsts[m.tun[t].first]];
            && m.tun[t].packet == a.payload
            && a.inst < |m.sessions| && a.box.key == m.sessions[a.inst].key && a.id == m.sessions[a.inst].id
            && a.box.nonce == Nonce(ToGateway, a.number) && a.box in m.vault && m.vault[a.box] == a.payload
            && ParseIPv4(a.payload).Some? && a.id in m.leases.forward
            && ParseIPv4(a.payload).value.src == m.leases.forward[a.id]
  {
    ReachableInv(cfg, m);
    hide ParseIPv4;
  }

  /** No packet of a session enters the tunnel twice. */
  lemma TunnelledOnce(cfg: Config, m: Machine, t: nat, u: nat)
    requires Reachable(cfg, m) && t < u < |m.tun|
    ensures m.tun[t].first < m.tun[u].first < |m.firsts|
    ensures m.firsts[m.tun[t].first] < |m.auths| && m.firsts[m.tun[u].first] < |m.auths|
    ensures var a, b := m.auths[m.firsts[m.tun[t].first]], m.auths[m.firsts[m.tun[u].first]];
            a.inst != b.inst || a.number != b.number
  {
    ReachableInv(cfg, m);
    hide Filter;
  }

  /** Every return frame is a sealed packet of a session of the one id that leases its destination. */
  lemma ReturnedToLessee(cfg: Config, m: Machine, z: nat, other: SessionId)
    requires Reachable(cfg, m) && z < |m.sends|
    ensures var s := m.sends[z];
            && ParseIPv4(s.packet).Some? && s.id in m.leases.forward
            && m.leases.forward[s.id] == ParseIPv4(s.packet).value.dst
            && (other in m.leases.forward && m.leases.forward[other] == ParseIPv4(s.packet).value.dst ==> other == s.id)
            && s.inst < |m.sessions| && m.sessions[s.inst].id == s.id && Seal(s.inst, s.number, s.packet) in m.seals
            && s.datagram == PacketWire(cfg.enc, m.sessions[s.inst], s.number, s.packet)
  {
    ReachableInv(cfg, m);
    assert SendOk(cfg, m.leases, m.sessions, m.seals, m.notes, m.sends[z]);
    hide ParseIPv4, PacketWire, SeenWithin;
    var s := m.sends[z];
    if other in m.leases.forward && m.leases.forward[other] == ParseIPv4(s.packet).value.dst {
      NoSharedLease(cfg.pool, m.leases, other, s.id);
    }
  }

  /** It goes to an endpoint that itself delivered an authenticated datagram for that id: the arrival
      `k` of that datagram was recorded, as note `e`, before the send and within the time to live. */
  lemma ReturnedToSender(cfg: Config, m: Machine, z: nat) returns (e: nat, k: nat)
    requires Reachable(cfg, m) && z < |m.sends|
    ensures var s := m.sends[z];
            && e < |m.notes| && m.notes[e].Seen? && m.notes[e].id == s.id && m.notes[e].addr == s.to
            && s.at - cfg.ttl < m.notes[e].at <= s.at
    ensures e < |m.noted| && k == m.noted[e] && k < |m.auths|
    ensures var s, a := m.sends[z], m.auths[k];
            && a.id == s.id && a.src == Some(s.to) && a.at <= m.notes[e].at
            && a.box in m.vault && m.vault[a.box] == a.payload
            && a.inst < |m.sessions| && m.sessions[a.inst].id == s.id && a.box.key == m.sessions[a.inst].key
  {
    hide ParseIPv4, PacketWire, Reachable, LeaseInv, CacheOk, SessionsOk, FirstsOk, TunOk, SealsOk, PathsOk, SaysSo;
    ReachableInv(cfg, m);
    var s := m.sends[z];
    assert SendOk(cfg, m.leases, m.sessions, m.seals, m.notes, s);
    e :| 0 <= e < |m.notes| && m.notes[e].Seen? && m.notes[e].id == s.id && m.notes[e].addr == s.to && s.at - cfg.ttl < m.notes[e].at <= s.at;
    assert Records(m.auths, m.notes[e], m.noted[e]);
    k := m.noted[e];
  }

  /** Every recording of an endpoint is caused by an authenticated arrival from there, opened no later. */
  lemma RecordedIsAuthenticated(cfg: Config, m: Machine, e: nat)
    requires Reachable(cfg, m) && e < |m.notes| && m.notes[e].Seen?
    ensures e < |m.noted| && m.noted[e] < |m.auths|
    ensures var a := m.auths[m.noted[e]];
            && a.id == m.notes[e].id && a.src == Some(m.notes[e].addr) && a.at <= m.notes[e].at
            && a.box in m.vault && m.vault[a.box] == a.payload
            && a.inst < |m.sessions| && m.sessions[a.inst].id == a.id && a.box.key == m.sessions[a.inst].key
  {
    ReachableInv(cfg, m);
    assert Records(m.auths, m.notes[e], m.noted[e]);
  }

  /** Each by an arrival of its own: recordings come in the order of their arrivals, none twice. */
  lemma RecordedInOrder(cfg: Config, m: Machine, e: nat, f: nat)
    requires Reachable(cfg, m) && e < f < |m.notes| && m.notes[e].Seen? && m.notes[f].Seen?
    ensures f < |m.noted| && m.noted[e] < m.noted[f] && m.notes[e].at <= m.notes[f].at
  {
    ReachableInv(cfg, m);
  }

  /** The handshake of `id` is complete: it has its key and its lease. */
  ghost predicate Admitted(m: Machine, id: SessionId) {
    id in m.keys && id in m.leases.forward && m.recv != Registered(id) && m.recv != Refusing(id)
  }

  lemma StepKeepsKey(cfg: Config, m: Machine, ev: Event, id: SessionId)
    requires Admitted(m, id) && ev != Forget(id)
    ensures var m' := Step(cfg, m, ev); Admitted(m', id) && m'.keys[id] == m.keys[id]
  {
    hide DoHello, DoLease, DoUnwind;
    match ev
    case Hello(id', key) => HelloKeepsKey(m, id', key, id);
    case Lease(fits) => LeaseKeepsKey(m, fits, id);
    case Unwind => UnwindKeepsKey(m, id);
    case Forget(_) =>
    case _ =>
      hide Step;
      TrafficLeavesKeys(cfg, m, ev);
  }

  lemma HelloKeepsKey(m: Machine, id': SessionId, key: Bytes, id: SessionId)
    requires Admitted(m, id)
    ensures var m' := DoHello(m, id', key); Admitted(m', id) && m'.keys[id] == m.keys[id]
  {
  }

  lemma LeaseKeepsKey(m: Machine, fits: bool, id: SessionId)
    requires Admitted(m, id)
    ensures var m' := DoLease(m, fits); Admitted(m', id) && m'.keys[id] == m.keys[id]
  {
  }

  lemma UnwindKeepsKey(m: Machine, id: SessionId)
    requires Admitted(m, id)
    ensures var m' := DoUnwind(m); Admitted(m', id) && m'.keys[id] == m.keys[id]
  {
  }

  /** Single use: once admitted, an id keeps its key whatever else happens, until it is forgotten; until
      then no handshake can bind it to another key. */
  lemma {:induction false} KeyKept(cfg: Config, hosts: seq<Addr>, evs: seq<Event>, i: nat, j: nat, id: SessionId)
    requires i <= j <= |evs| && Admitted(Exec(cfg, hosts, evs[..i]), id)
    requires forall k | i <= k < j :: evs[k] != Forget(id)
    ensures var m, m' := Exec(cfg, hosts, evs[..i]), Exec(cfg, hosts, evs[..j]);
            Admitted(m', id) && m'.keys[id] == m.keys[id]
    decreases j
  {
    hide Step, Admitted;
    if i < j {
      assert evs[..j][..j - 1] == evs[..j - 1];
      KeyKept(cfg, hosts, evs, i, j - 1, id);
      StepKeepsKey(cfg, Exec(cfg, hosts, evs[..j - 1]), evs[j - 1], id);
    }
  }
}
