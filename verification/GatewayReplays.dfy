/** When a datagram whose packet is already in the tunnel gets it in again: exactly when the session that
    now serves its id has the same key and has not seen its number. */
module GatewayReplays {
  import opened Basics
  import opened DataWire
  import opened SessionSpec
  import opened GatewaySpec
  import opened Allocators
  import opened GatewayRuns
  import Safety = GatewaySafety
  import Refines = GatewayRefines
  import Scenarios = GatewayScenarios
  import P = PathSets
  import Replay = ReplaySpec

  /** The receive loop takes `wire` from arrival to the device, which accepts. */
  function Replayed(cfg: Config, m: Machine, wire: Bytes, src: Option<P.AddrPort>): Machine {
    Step(cfg, Step(cfg, Refines.Taken(cfg, m, wire, src), Note), LetOut(true))
  }

  /** Before the datagram comes: the session that will get it, cached or to be built, has the key of `a`
      and takes its number for a first copy. */
  ghost predicate LetsIn(m: Machine, a: Auth) {
    if a.id in m.cache
    then m.cache[a.id] < |m.sessions| && Takes(m.sessions[m.cache[a.id]], a)
    else a.id in m.keys && m.keys[a.id] == a.box.key
  }

  ghost predicate Takes(s: Session, a: Auth) {
    s.key == a.box.key && Replay.Decide(s.window, a.number) == Replay.FirstCopy
  }

  /** Packet `n`, the last of the tunnel, came out of `box`. */
  ghost predicate Entered(m: Machine, n: nat, box: Box) {
    && |m.tun| == n + 1 && m.tun[n].first < |m.firsts| && m.firsts[m.tun[n].first] < |m.auths|
    && Behind(m, n).box == box
  }

  /** What holds of an arrival behind a packet of the tunnel. */
  ghost predicate Past(cfg: Config, m: Machine, a: Auth) {
    && Safety.SaysSo(a) && a.box.nonce == Nonce(ToGateway, a.number) && a.box in m.vault && m.vault[a.box] == a.payload
    && Filter(m.leases, a.id, a.payload) == Forward && a.number > 0
    && !IsZero(a.id) && |a.box.key| == KEY_SIZE && cfg.capacity > 0
    && a.inst < |m.sessions| && !Takes(m.sessions[a.inst], a)
  }

  lemma TunnelIsPast(cfg: Config, m: Machine, t: nat)
    requires Safety.Inv(cfg, m) && t < |m.tun|
    ensures m.tun[t].first < |m.firsts| && m.firsts[m.tun[t].first] < |m.auths| && Past(cfg, m, Behind(m, t))
  {
    hide Filter, Safety.SaysSo, Nonce;
  }

  /** Opening a datagram of `a` again, at a session of its id. */
  lemma Reopened(vault: Vault, s: Session, a: Auth)
    requires Safety.SaysSo(a) && a.box.nonce == Nonce(ToGateway, a.number) && s.role == Responder
    ensures |WireOf(a)| >= DATA_HEADER_SIZE && WireBox(s, WireOf(a), a.number) == a.box.(key := s.key)
    ensures var r := Authenticate(vault, s, WireOf(a));
            && (r.Ok? ==> r.value.number == a.number)
            && (s.key == a.box.key && a.box in vault ==> r == Ok(Plain(a.number, vault[a.box])))
  {
    hide ParseHeader, Nonce;
    var wire := WireOf(a);
    assert wire[..DATA_HEADER_SIZE] == a.box.aad && wire[DATA_HEADER_SIZE..] == a.box.ct;
  }

  /** From the moment its session `s` is resolved, the packet gets in exactly when `s` takes it. */
  lemma ResolvedEnters(cfg: Config, m: Machine, a: Auth, src: Option<P.AddrPort>, s: Session)
    requires Refines.Pointed(m.cache, m.sessions) && a.id in m.cache && m.sessions[m.cache[a.id]] == s && s.role == Responder
    requires m.recv == Resolved(m.cache[a.id], WireOf(a), src)
    requires Safety.SaysSo(a) && a.box.nonce == Nonce(ToGateway, a.number) && a.box in m.vault && m.vault[a.box] == a.payload
    requires Filter(m.leases, a.id, a.payload) == Forward
    ensures var m' := Step(cfg, Step(cfg, Step(cfg, Step(cfg, m, Open), Judge), Note), LetOut(true));
            Entered(m', |m.tun|, a.box) <==> Takes(s, a)
  {
    hide Step, Authenticate, Safety.SaysSo, Nonce, Filter, Replay.Decide, P.RecordState, WireBox, Observe;
    Reopened(m.vault, s, a);
    Refines.OpenJudge(cfg, m, a.id, WireOf(a), src);
    var m1 := Step(cfg, Step(cfg, m, Open), Judge);
    if Authenticate(m.vault, s, WireOf(a)).Err? {
      Refines.IdleReceive(cfg, m1, true);
    } else {
      var first := Replay.Decide(s.window, a.number) == Replay.FirstCopy;
      Refines.OnwardIsSteps(cfg, m1, |m.auths|, first, true);
      LastIn(m, m1, Step(cfg, Step(cfg, m1, Note), LetOut(true)), a, s, first);
    }
  }

  /** The packet that comes out is the one just judged. */
  lemma LastIn(m: Machine, m1: Machine, m': Machine, a: Auth, s: Session, first: bool)
    requires |m1.auths| == |m.auths| + 1 && m1.leases == m.leases && m1.tun == m.tun
    requires m1.firsts == if first then m.firsts + [|m.auths|] else m.firsts
    requires m1.auths[|m.auths|].id == a.id && m1.auths[|m.auths|].box == a.box.(key := s.key)
    requires s.key == a.box.key ==> m1.auths[|m.auths|].payload == a.payload
    requires Refines.Onwards(m1, m1.auths[|m.auths|], first, true, m') && Filter(m.leases, a.id, a.payload) == Forward
    ensures Entered(m', |m.tun|, a.box) <==> s.key == a.box.key && first
  {
    hide Filter, P.RecordState;
  }

  lemma ResolvesTo(cfg: Config, m: Machine, a: Auth)
    requires Safety.Inv(cfg, m) && Past(cfg, m, a)
    ensures var r := Resolve(m.keys, cfg.capacity, Refines.CacheOf(m.cache, m.sessions), a.id);
            && Refines.Pointed(m.cache, m.sessions)
            && (LetsIn(m, a) <==> r.Ok? && Takes(r.value, a)) && (r.Ok? ==> r.value.role == Responder)
  {
    hide Filter, Safety.SaysSo, Nonce;
  }

  /** In every state between two datagrams: the datagram behind a packet of the tunnel, arriving again from
      anywhere, brings its packet into the tunnel again exactly when the session that serves its id by
      then has its key and not its number. The session that let it in never does. */
  lemma ReplayEntersExactly(cfg: Config, m: Machine, t: nat, src: Option<P.AddrPort>)
    requires Safety.Inv(cfg, m) && m.recv == Ready && t < |m.tun|
    ensures m.tun[t].first < |m.firsts| && m.firsts[m.tun[t].first] < |m.auths|
    ensures var a := Behind(m, t);
            && (Entered(Replayed(cfg, m, WireOf(a), src), |m.tun|, a.box) <==> LetsIn(m, a))
            && (a.id in m.cache && m.cache[a.id] == a.inst ==> !LetsIn(m, a))
  {
    hide Step, Safety.Inv, Refines.Taken, Resolve, Refines.CacheOf, Refines.Pointed, Nonce, Filter;
    TunnelIsPast(cfg, m, t);
    var a := Behind(m, t);
    ResolvesTo(cfg, m, a);
    ReplayTaken(cfg, m, a, src);
  }

  lemma ReplayTaken(cfg: Config, m: Machine, a: Auth, src: Option<P.AddrPort>)
    requires m.recv == Ready && Past(cfg, m, a) && Refines.Pointed(m.cache, m.sessions)
    requires var r := Resolve(m.keys, cfg.capacity, Refines.CacheOf(m.cache, m.sessions), a.id); r.Ok? ==> r.value.role == Responder
    ensures var r := Resolve(m.keys, cfg.capacity, Refines.CacheOf(m.cache, m.sessions), a.id);
            Entered(Replayed(cfg, m, WireOf(a), src), |m.tun|, a.box) <==> r.Ok? && Takes(r.value, a)
  {
    hide Step, ParseHeader, Resolve, Refines.CacheOf, Refines.Pointed, Nonce, Filter, Takes;
    var wire := WireOf(a);
    Refines.DatagramFinds(cfg, m, wire, src, a.id);
    var m1 := Step(cfg, m, Datagram(wire, src));
    var r := Resolve(m.keys, cfg.capacity, Refines.CacheOf(m.cache, m.sessions), a.id);
    if r.Err? {
      Refines.RejectedIsSteps(cfg, m, wire, src);
      Refines.IdleReceive(cfg, m, true);
    } else {
      ResolvedEnters(cfg, m1, a, src, r.value);
    }
  }

  /** So from every such state in which the id is forgotten, registering it again under that key is
      enough to let the old datagram in. */
  lemma RegisteredAgainReplays(cfg: Config, m: Machine, t: nat, src: Option<P.AddrPort>)
    requires Safety.Inv(cfg, m) && m.recv == Ready && t < |m.tun|
    ensures m.tun[t].first < |m.firsts| && m.firsts[m.tun[t].first] < |m.auths|
    ensures var a := Behind(m, t);
            var m' := Step(cfg, Step(cfg, m, Hello(a.id, a.box.key)), Event.Lease(true));
            a.id !in m.keys && a.id !in m.cache ==> Entered(Replayed(cfg, m', WireOf(a), src), |m.tun|, a.box)
  {
    hide Step, Safety.Inv, Replayed, Safety.SaysSo, Nonce, Takes;
    TunnelIsPast(cfg, m, t);
    var a := Behind(m, t);
    if a.id !in m.keys && a.id !in m.cache {
      Leased(m.leases, a.id, a.payload);
      hide Filter, LeaseFor, AllocateIn;
      Scenarios.Admit(cfg, m, a.id, a.box.key);
      AdmitKeeps(cfg, m, a.id, a.box.key);
      ReplayEntersExactly(cfg, Step(cfg, Step(cfg, m, Hello(a.id, a.box.key)), Event.Lease(true)), t, src);
    }
  }

  lemma Leased(l: Leases, id: SessionId, packet: Bytes)
    requires Filter(l, id, packet) == Forward
    ensures LeaseFor(l, id).Some?
  {
  }

  lemma AdmitKeeps(cfg: Config, m: Machine, id: SessionId, key: Bytes)
    requires Safety.Inv(cfg, m)
    ensures Safety.Inv(cfg, Step(cfg, Step(cfg, m, Hello(id, key)), Event.Lease(true)))
  {
    hide Step, Safety.Inv;
    Safety.StepKeeps(cfg, m, Hello(id, key));
    Safety.StepKeeps(cfg, Step(cfg, m, Hello(id, key)), Event.Lease(true));
  }
}
