/** Exactly-once delivery: with a willing device and no copy overtaken by a whole window, every packet of a
    client of which a copy arrives, and which may leave at all, enters the tunnel once and only once. */
module GatewayDelivery {
  import opened Basics
  import opened DataWire
  import opened SessionSpec
  import opened GatewaySpec
  import opened Allocators
  import opened GatewayRuns
  import Safety = GatewaySafety
  import Nonces = GatewayNonces
  import Clients = GatewayClients
  import Pair = SessionPair
  import P = PathSets
  import Replay = ReplaySpec

  // ---- Windows and arrivals --------------------------------------------------------------------

  /** The width of every session's window. */
  function WidthOf(cfg: Config): nat {
    if cfg.capacity > 0 then Width(cfg.capacity) else 0
  }

  /** The packet numbers that arrived at session `i`, oldest first. */
  function NumbersAt(auths: seq<Auth>, i: nat): seq<nat> {
    if auths == [] then []
    else
      var front, a := NumbersAt(auths[..|auths| - 1], i), auths[|auths| - 1];
      if a.inst == i then front + [a.number] else front
  }

  /** The arrivals that the windows have been asked about: all but one that was only just opened. */
  function Asked(auths: seq<Auth>, recv: Receiving): seq<Auth> {
    if recv.Opened? && recv.auth <= |auths| then auths[..recv.auth] else auths
  }

  /** Every window is what the arrivals at its session make of it. */
  ghost predicate WindowsOk(w: nat, sessions: seq<Session>, asked: seq<Auth>) {
    forall i | 0 <= i < |sessions| :: sessions[i].window == Replay.Run(w, NumbersAt(asked, i))
  }

  /** The decision on arrival `k`. */
  function DecisionOn(w: nat, auths: seq<Auth>, k: nat): Replay.Decision
    requires k < |auths|
  {
    Replay.Decide(Replay.Run(w, NumbersAt(auths[..k], auths[k].inst)), auths[k].number)
  }

  /** Whatever was called a first copy is kept as one. */
  ghost predicate FirstsKept(w: nat, asked: seq<Auth>, firsts: seq<nat>) {
    forall k | 0 <= k < |asked| && DecisionOn(w, asked, k) == Replay.FirstCopy :: k in firsts
  }

  /** First copy `x` has entered the tunnel, if it may. */
  ghost predicate IsOut(leases: Leases, auths: seq<Auth>, firsts: seq<nat>, tun: seq<Tun>, x: nat)
    requires x < |firsts|
  {
    && firsts[x] < |auths|
    && (Filter(leases, auths[firsts[x]].id, auths[firsts[x]].payload) == Forward ==>
        exists t :: 0 <= t < |tun| && tun[t].first == x)
  }

  /** The latest first copy is still in the receive loop's hands. */
  predicate InHand(recv: Receiving) {
    (recv.Judged? && recv.first) || recv == Leaving
  }

  ghost predicate AllOut(leases: Leases, auths: seq<Auth>, firsts: seq<nat>, tun: seq<Tun>, recv: Receiving) {
    forall x | 0 <= x < |firsts| && (InHand(recv) ==> x < |firsts| - 1) :: IsOut(leases, auths, firsts, tun, x)
  }

  /** Every session's id has a lease, also after it is forgotten, and so has every arrival's. */
  ghost predicate LeasesStay(sessions: seq<Session>, auths: seq<Auth>, leases: Leases) {
    && (forall i | 0 <= i < |sessions| :: sessions[i].id in leases.forward)
    && (forall k | 0 <= k < |auths| :: auths[k].id in leases.forward && auths[k].inst < |sessions|)
  }

  ghost predicate Delivers(cfg: Config, m: Machine) {
    && (m.recv.Opened? ==> m.recv.auth + 1 == |m.auths|)
    && WindowsOk(WidthOf(cfg), m.sessions, Asked(m.auths, m.recv))
    && FirstsKept(WidthOf(cfg), Asked(m.auths, m.recv), m.firsts)
    && AllOut(m.leases, m.auths, m.firsts, m.tun, m.recv)
    && LeasesStay(m.sessions, m.auths, m.leases)
  }

  // ---- Building sessions -----------------------------------------------------------------------

  lemma {:induction false} NoneYet(auths: seq<Auth>, i: nat)
    requires forall k | 0 <= k < |auths| :: auths[k].inst < i
    ensures NumbersAt(auths, i) == []
  {
    if auths != [] {
      NoneYet(auths[..|auths| - 1], i);
    }
  }

  lemma BuildWindows(w: nat, ss: seq<Session>, s: Session, asked: seq<Auth>)
    requires WindowsOk(w, ss, asked) && s.window == Replay.Fresh(w) && forall k | 0 <= k < |asked| :: asked[k].inst < |ss|
    ensures WindowsOk(w, ss + [s], asked)
  {
    hide NumbersAt;
    NoneYet(asked, |ss|);
  }

  /** A lookup leaves everything as it is, or builds one new session of a leased id. */
  ghost predicate Built(cfg: Config, m: Machine, ss': seq<Session>) {
    || ss' == m.sessions
    || (|ss'| == |m.sessions| + 1 && m.sessions == ss'[..|m.sessions|]
        && ss'[|m.sessions|].window == Replay.Fresh(WidthOf(cfg)) && ss'[|m.sessions|].id in m.leases.forward)
  }

  lemma BuiltDelivers(cfg: Config, m: Machine, ss': seq<Session>)
    requires Delivers(cfg, m) && Built(cfg, m, ss')
    ensures WindowsOk(WidthOf(cfg), ss', Asked(m.auths, m.recv)) && LeasesStay(ss', m.auths, m.leases)
  {
    hide WindowsOk, FirstsKept, AllOut;
    if ss' != m.sessions {
      var s := ss'[|m.sessions|];
      assert ss' == m.sessions + [s];
      BuildWindows(WidthOf(cfg), m.sessions, s, Asked(m.auths, m.recv));
    }
  }

  lemma FindBuilds(cfg: Config, m: Machine, id: SessionId)
    requires id in m.leases.forward
    ensures Built(cfg, m, Find(cfg, m, id).0.sessions)
  {
    if id !in m.cache && id in m.keys {
      var r := New(id, m.keys[id], Responder, cfg.capacity);
      assert r.Ok? ==> r.value.window == Replay.Fresh(WidthOf(cfg)) && r.value.id == id;
    }
  }

  lemma DatagramBuilds(cfg: Config, m: Machine, wire: Bytes, src: Option<P.AddrPort>)
    requires Safety.Inv(cfg, m)
    ensures var m' := DoDatagram(cfg, m, wire, src); Built(cfg, m, m'.sessions) && (m'.recv == m.recv || (m.recv == Ready && m'.recv.Resolved?))
  {
    hide Safety.Inv, Find, ParseHeader, Built;
    if m.recv == Ready && ParseHeader(wire).Ok? {
      var id := ParseHeader(wire).value.id.session;
      FindFrame(cfg, m, id);
      UnleasedIsUnknown(cfg, m, id);
      if id in m.leases.forward {
        FindBuilds(cfg, m, id);
      } else {
        SameBuilt(cfg, m);
      }
    } else {
      SameBuilt(cfg, m);
    }
  }

  lemma SameBuilt(cfg: Config, m: Machine)
    ensures Built(cfg, m, m.sessions)
  {
  }

  lemma UnleasedIsUnknown(cfg: Config, m: Machine, id: SessionId)
    requires Safety.Inv(cfg, m) && m.recv == Ready
    ensures id !in m.leases.forward ==> Find(cfg, m, id) == (m, None)
  {
    hide Find;
    if id !in m.leases.forward {
      Safety.Unknown(cfg, m, id);
    }
  }

  lemma ChooseBuilds(cfg: Config, m: Machine)
    requires Safety.Inv(cfg, m)
    ensures Built(cfg, m, DoChoose(cfg, m).sessions)
  {
    hide Find, Built, ParseIPv4;
    if m.ret.Looked? {
      FindBuilds(cfg, m, m.ret.id);
    } else {
      SameBuilt(cfg, m);
    }
  }

  lemma DatagramDelivers(cfg: Config, m: Machine, wire: Bytes, src: Option<P.AddrPort>)
    requires Safety.Inv(cfg, m) && Delivers(cfg, m)
    ensures Delivers(cfg, DoDatagram(cfg, m, wire, src))
  {
    hide Safety.Inv, DoDatagram, WindowsOk, FirstsKept, IsOut, LeasesStay, Built;
    DatagramFrame(cfg, m, wire, src);
    DatagramBuilds(cfg, m, wire, src);
    BuiltDelivers(cfg, m, DoDatagram(cfg, m, wire, src).sessions);
  }

  lemma ChooseDelivers(cfg: Config, m: Machine)
    requires Safety.Inv(cfg, m) && Delivers(cfg, m)
    ensures Delivers(cfg, DoChoose(cfg, m))
  {
    hide Safety.Inv, DoChoose, WindowsOk, FirstsKept, AllOut, LeasesStay, Built;
    ChooseFrame(cfg, m);
    ChooseBuilds(cfg, m);
    BuiltDelivers(cfg, m, DoChoose(cfg, m).sessions);
  }

  // ---- Opening and judging ---------------------------------------------------------------------

  lemma OpenOut(l: Leases, auths: seq<Auth>, a: Auth, firsts: seq<nat>, tun: seq<Tun>, recv: Receiving, recv': Receiving)
    requires AllOut(l, auths, firsts, tun, recv) && !InHand(recv) && !InHand(recv')
    ensures AllOut(l, auths + [a], firsts, tun, recv')
  {
    hide Filter;
    forall x | 0 <= x < |firsts| ensures IsOut(l, auths + [a], firsts, tun, x) {
      assert IsOut(l, auths, firsts, tun, x);
    }
  }

  lemma OpenAdds(cfg: Config, m: Machine)
    requires Safety.Inv(cfg, m)
    ensures var m' := DoOpen(m);
            || m' == m || m' == m.(recv := Ready)
            || (m.recv.Resolved? && |m'.auths| == |m.auths| + 1 && m'.auths[..|m.auths|] == m.auths
                && m' == m.(auths := m'.auths, recv := Opened(|m.auths|))
                && m'.auths[|m.auths|].inst < |m.sessions| && m'.auths[|m.auths|].id == m.sessions[m'.auths[|m.auths|].inst].id)
  {
    hide Authenticate, WireBox, Safety.Inv;
  }

  lemma OpenReturns(m: Machine)
    ensures DoOpen(m) == m.(recv := Ready) ==> m.recv.Resolved? || m.recv == Ready
  {
    hide Authenticate, WireBox;
  }

  lemma OpenDelivers(cfg: Config, m: Machine)
    requires Safety.Inv(cfg, m) && Delivers(cfg, m)
    ensures Delivers(cfg, DoOpen(m))
  {
    hide Safety.Inv, DoOpen, WindowsOk, FirstsKept, IsOut, Filter;
    OpenAdds(cfg, m);
    OpenReturns(m);
    var m' := DoOpen(m);
    if m' != m && m' != m.(recv := Ready) {
      var a := m'.auths[|m.auths|];
      assert m'.auths == m.auths + [a];
      assert Asked(m'.auths, m'.recv) == m.auths == Asked(m.auths, m.recv);
      OpenOut(m.leases, m.auths, a, m.firsts, m.tun, m.recv, m'.recv);
    }
  }

  /** Asking a window about the arrival just opened brings it up to date, and no other. */
  lemma JudgeWindows(w: nat, ss: seq<Session>, auths: seq<Auth>)
    requires auths != [] && WindowsOk(w, ss, auths[..|auths| - 1]) && auths[|auths| - 1].inst < |ss|
    ensures var a := auths[|auths| - 1]; WindowsOk(w, ss[a.inst := Observe(ss[a.inst], a.number)], auths)
  {
    var a := auths[|auths| - 1];
    var front := NumbersAt(auths[..|auths| - 1], a.inst);
    assert (front + [a.number])[..|front|] == front;
    hide Replay.Decide, Replay.Observe;
  }

  lemma JudgeKept(w: nat, ss: seq<Session>, auths: seq<Auth>, firsts: seq<nat>)
    requires auths != [] && WindowsOk(w, ss, auths[..|auths| - 1]) && FirstsKept(w, auths[..|auths| - 1], firsts)
    requires auths[|auths| - 1].inst < |ss|
    ensures var a := auths[|auths| - 1];
            var first := Replay.Decide(ss[a.inst].window, a.number) == Replay.FirstCopy;
            FirstsKept(w, auths, if first then firsts + [|auths| - 1] else firsts)
  {
    hide Replay.Decide, NumbersAt, Replay.Run;
    var n := |auths| - 1;
    var front := auths[..n];
    forall k | 0 <= k < n ensures DecisionOn(w, auths, k) == DecisionOn(w, front, k) {
      assert auths[..k] == front[..k];
    }
  }

  lemma JudgeOut(l: Leases, auths: seq<Auth>, firsts: seq<nat>, tun: seq<Tun>, recv: Receiving, k: nat)
    requires AllOut(l, auths, firsts, tun, recv) && !InHand(recv)
    ensures AllOut(l, auths, firsts + [k], tun, Judged(k, true)) && AllOut(l, auths, firsts, tun, Judged(k, false))
  {
    hide Filter;
    forall x | 0 <= x < |firsts| ensures IsOut(l, auths, firsts + [k], tun, x) {
      assert IsOut(l, auths, firsts, tun, x);
    }
  }

  lemma JudgeDelivers(cfg: Config, m: Machine)
    requires Delivers(cfg, m)
    ensures Delivers(cfg, DoJudge(m))
  {
    hide WindowsOk, FirstsKept, AllOut, Replay.Decide, Observe;
    if m.recv.Opened? && m.recv.auth < |m.auths| && m.auths[m.recv.auth].inst < |m.sessions| {
      JudgeWindows(WidthOf(cfg), m.sessions, m.auths);
      JudgeKept(WidthOf(cfg), m.sessions, m.auths, m.firsts);
      JudgeOut(m.leases, m.auths, m.firsts, m.tun, m.recv, m.recv.auth);
      JudgeLeases(m);
    }
  }

  lemma JudgeLeases(m: Machine)
    requires LeasesStay(m.sessions, m.auths, m.leases)
    ensures LeasesStay(DoJudge(m).sessions, m.auths, m.leases)
  {
    hide Replay.Decide;
  }

  // ---- Letting packets out, and the rest -------------------------------------------------------

  lemma NoteDelivers(cfg: Config, m: Machine)
    requires Delivers(cfg, m)
    ensures Delivers(cfg, DoNote(m))
  {
    hide WindowsOk, FirstsKept, IsOut, LeasesStay, P.RecordState;
  }

  lemma LastOut(l: Leases, auths: seq<Auth>, firsts: seq<nat>, tun: seq<Tun>, tun': seq<Tun>)
    requires AllOut(l, auths, firsts, tun, Leaving) && firsts != [] && firsts[|firsts| - 1] < |auths|
    requires var a := auths[firsts[|firsts| - 1]];
             tun' == if Filter(l, a.id, a.payload) == Forward then tun + [Tun(|firsts| - 1, a.payload)] else tun
    ensures AllOut(l, auths, firsts, tun', Ready)
  {
    hide Filter;
    forall x | 0 <= x < |firsts| ensures IsOut(l, auths, firsts, tun', x) {
      if x < |firsts| - 1 {
        assert IsOut(l, auths, firsts, tun, x);
        if t :| 0 <= t < |tun| && tun[t].first == x {
          assert tun'[t].first == x;
        }
      } else if tun' != tun {
        assert tun'[|tun|].first == x;
      }
    }
  }

  lemma LetOutDelivers(cfg: Config, m: Machine)
    requires Delivers(cfg, m)
    ensures Delivers(cfg, DoLetOut(m, true))
  {
    hide WindowsOk, FirstsKept, AllOut, LeasesStay, Filter;
    if m.recv == Leaving && m.firsts != [] && m.firsts[|m.firsts| - 1] < |m.auths| {
      LastOut(m.leases, m.auths, m.firsts, m.tun, DoLetOut(m, true).tun);
    }
  }

  lemma NumberDelivers(cfg: Config, m: Machine)
    requires Delivers(cfg, m)
    ensures Delivers(cfg, DoNumber(m))
  {
    NumberFrame(m);
    NumberWindows(m);
    hide DoNumber, FirstsKept, AllOut, NumbersAt, Replay.Run;
  }

  lemma NumberWindows(m: Machine)
    ensures var ss := DoNumber(m).sessions;
            |ss| == |m.sessions| && forall i | 0 <= i < |ss| :: ss[i].window == m.sessions[i].window && ss[i].id == m.sessions[i].id
  {
  }

  lemma LeaseOut(l: Leases, l': Leases, ss: seq<Session>, auths: seq<Auth>, firsts: seq<nat>, tun: seq<Tun>, recv: Receiving, recv': Receiving)
    requires AllOut(l, auths, firsts, tun, recv) && LeasesStay(ss, auths, l) && Safety.LeasesGrown(l, l')
    requires !InHand(recv)
    ensures AllOut(l', auths, firsts, tun, recv') && LeasesStay(ss, auths, l')
  {
    hide ParseIPv4;
    forall x | 0 <= x < |firsts| ensures IsOut(l', auths, firsts, tun, x) {
      assert IsOut(l, auths, firsts, tun, x);
    }
  }

  lemma LeaseDelivers(cfg: Config, m: Machine, fits: bool)
    requires Safety.Inv(cfg, m) && Delivers(cfg, m)
    ensures Delivers(cfg, DoLease(m, fits))
  {
    hide WindowsOk, FirstsKept, AllOut, LeasesStay, LeaseFor, AllocateIn, Safety.Inv, Safety.LeasesGrown;
    if m.recv.Registered? {
      LeasesOnlyGrow(cfg, m, m.recv.id);
      LeaseOut(m.leases, AllocateIn(m.leases, m.recv.id), m.sessions, m.auths, m.firsts, m.tun, m.recv, DoLease(m, fits).recv);
      LeaseOut(m.leases, m.leases, m.sessions, m.auths, m.firsts, m.tun, m.recv, DoLease(m, fits).recv);
    }
  }

  lemma LeasesOnlyGrow(cfg: Config, m: Machine, id: SessionId)
    requires Safety.Inv(cfg, m)
    ensures Safety.LeasesGrown(m.leases, AllocateIn(m.leases, id)) && Safety.LeasesGrown(m.leases, m.leases)
  {
    hide AllocateIn;
    Safety.LeaseGrows(cfg.pool, m.leases, id);
  }

  lemma HelloDelivers(cfg: Config, m: Machine, id: SessionId, key: Bytes)
    requires Delivers(cfg, m)
    ensures Delivers(cfg, DoHello(m, id, key))
  {
    hide WindowsOk, FirstsKept, IsOut, LeasesStay;
  }

  lemma UnwindDelivers(cfg: Config, m: Machine)
    requires Delivers(cfg, m)
    ensures Delivers(cfg, DoUnwind(m))
  {
    hide WindowsOk, FirstsKept, IsOut, LeasesStay;
  }

  lemma StepDelivers(cfg: Config, m: Machine, ev: Event)
    requires Safety.Inv(cfg, m) && Delivers(cfg, m) && (ev.LetOut? ==> ev.ok)
    ensures Delivers(cfg, Step(cfg, m, ev))
  {
    hide Safety.Inv, WindowsOk, FirstsKept, AllOut, LeasesStay;
    hide DoHello, DoLease, DoUnwind, DoDatagram, DoOpen, DoJudge, DoNote, DoLetOut, DoPacket, DoChoose, DoNumber, DoSeal, DoDeliver;
    match ev
    case Hello(id, key) => HelloDelivers(cfg, m, id, key);
    case Lease(fits) => LeaseDelivers(cfg, m, fits);
    case Unwind => UnwindDelivers(cfg, m);
    case Datagram(wire, src) => DatagramDelivers(cfg, m, wire, src);
    case Open => OpenDelivers(cfg, m);
    case Judge => JudgeDelivers(cfg, m);
    case Note => NoteDelivers(cfg, m);
    case LetOut(_) => LetOutDelivers(cfg, m);
    case Packet(packet) => PacketFrame(m, packet);
    case Choose => ChooseDelivers(cfg, m);
    case Number => NumberDelivers(cfg, m);
    case SealIt => SealFrame(cfg, m);
    case Deliver(accepts) => DeliverFrame(cfg, m, accepts);
    case Tick(_) =>
    case Forget(_) =>
    case Outside(_, _) =>
  }

  /** The device accepts whatever it is given. */
  ghost predicate Willing(evs: seq<Event>) {
    forall i | 0 <= i < |evs| && evs[i].LetOut? :: evs[i].ok
  }

  lemma {:induction false} ExecDelivers(cfg: Config, hosts: seq<Addr>, evs: seq<Event>)
    requires Safety.Pool(cfg, hosts) && Safety.InBudget(cfg, hosts, evs) && Willing(evs)
    ensures Delivers(cfg, Exec(cfg, hosts, evs))
  {
    hide Step;
    if evs != [] {
      var front, ev := evs[..|evs| - 1], evs[|evs| - 1];
      Safety.PrefixInBudget(cfg, hosts, evs, |evs| - 1);
      hide Delivers, Safety.Inv;
      ExecDelivers(cfg, hosts, front);
      Safety.ExecInv(cfg, hosts, front);
      StepDelivers(cfg, Exec(cfg, hosts, front), ev);
    } else {
    }
  }

  // ---- Exactly once ----------------------------------------------------------------------------

  /** Which arrival is number `at` at session `i`. */
  lemma {:induction false} ArrivalAt(auths: seq<Auth>, i: nat, at: nat) returns (k: nat)
    requires at < |NumbersAt(auths, i)|
    ensures k < |auths| && auths[k].inst == i && auths[k].number == NumbersAt(auths, i)[at]
    ensures NumbersAt(auths[..k], i) == NumbersAt(auths, i)[..at]
  {
    var front := auths[..|auths| - 1];
    var ns := NumbersAt(front, i);
    if at < |ns| {
      k := ArrivalAt(front, i, at);
      assert front[..k] == auths[..k];
    } else {
      k := |auths| - 1;
    }
  }

  lemma {:induction false} NumberIn(auths: seq<Auth>, k: nat)
    requires k < |auths|
    ensures auths[k].number in NumbersAt(auths, auths[k].inst)
  {
    var front := auths[..|auths| - 1];
    if k < |front| {
      NumberIn(front, k);
      assert front[k] == auths[k];
    } else {
      assert NumbersAt(auths, auths[k].inst)[|NumbersAt(front, auths[k].inst)|] == auths[k].number;
    }
  }

  /** If nothing that reached the session of arrival `k` was overtaken by a whole window, one arrival there
      with the same number is a first copy. */
  lemma AcceptedOnce(cfg: Config, m: Machine, k: nat) returns (k': nat)
    requires Delivers(cfg, m) && !m.recv.Opened? && k < |m.auths| && m.auths[k].number > 0
    requires cfg.capacity > 0 && Replay.BoundedSkew(WidthOf(cfg), NumbersAt(m.auths, m.auths[k].inst))
    ensures k' < |m.auths| && m.auths[k'].inst == m.auths[k].inst && m.auths[k'].number == m.auths[k].number && k' in m.firsts
  {
    hide WindowsOk, AllOut, LeasesStay, NumbersAt, Replay.Run, Replay.BoundedSkew, Replay.Decide;
    var a, w := m.auths[k], WidthOf(cfg);
    NumberIn(m.auths, k);
    var at := Replay.ExactlyOnce(w, NumbersAt(m.auths, a.inst), a.number);
    k' := ArrivalAt(m.auths, a.inst, at);
    assert DecisionOn(w, m.auths, k') == Replay.FirstCopy;
  }

  /** And it has entered the tunnel, unless it may not leave or is still on its way. */
  lemma FirstIsOut(cfg: Config, m: Machine, k: nat) returns (t: nat)
    requires Safety.Inv(cfg, m) && Delivers(cfg, m) && m.recv == Ready && k in m.firsts && k < |m.auths|
    requires Filter(m.leases, m.auths[k].id, m.auths[k].payload) == Forward
    ensures t < |m.tun| && m.tun[t].first < |m.firsts| && m.firsts[m.tun[t].first] == k
  {
    hide Safety.Inv, WindowsOk, FirstsKept, LeasesStay, Filter;
    var x: nat :| x < |m.firsts| && m.firsts[x] == k;
    assert IsOut(m.leases, m.auths, m.firsts, m.tun, x);
    t :| 0 <= t < |m.tun| && m.tun[t].first == x;
  }

  /** The session behind packet `u` of the tunnel has this key, and the packet this number. */
  ghost predicate IsPacket(m: Machine, u: nat, key: Bytes, n: U64) {
    && u < |m.tun| && m.tun[u].first < |m.firsts| && m.firsts[m.tun[u].first] < |m.auths|
    && Behind(m, u).box.key == key && Behind(m, u).number == n
  }

  lemma OnlyOne(cfg: Config, hosts: seq<Addr>, evs: seq<Event>, key: Bytes, n: U64, t: nat, u: nat)
    requires Safety.Pool(cfg, hosts) && Safety.InBudget(cfg, hosts, evs) && Nonces.Registrations(cfg, hosts, evs, key) <= 1
    requires var m := Exec(cfg, hosts, evs); IsPacket(m, t, key, n) && IsPacket(m, u, key, n)
    ensures t == u
  {
    hide Exec, Safety.InBudget, Nonces.Registrations;
    if t < u {
      Clients.FreshKeysTunnelOnce(cfg, hosts, evs, key, t, u);
    } else if u < t {
      Clients.FreshKeysTunnelOnce(cfg, hosts, evs, key, u, t);
    }
  }

  /** Over every run of the gateway and every run of the client whose key it registered once, between two
      datagrams: of every packet with an arriving copy that may leave, the tunnel holds exactly one, and
      it is what the client sent under that number. */
  lemma SentExactlyOnce(cfg: Config, hosts: seq<Addr>, evs: seq<Event>, sh: Pair.Shared, sys: Pair.System, k: nat) returns (t: nat)
    requires Safety.Pool(cfg, hosts) && Safety.InBudget(cfg, hosts, evs) && Willing(evs) && Pair.Reachable(sh, sys)
    requires Clients.OnlyClientSeals(evs, sh, sys) && Nonces.Registrations(cfg, hosts, evs, sh.key) <= 1
    requires var m := Exec(cfg, hosts, evs);
             && m.recv == Ready && k < |m.auths| && m.auths[k].box.key == sh.key
             && Replay.BoundedSkew(WidthOf(cfg), NumbersAt(m.auths, m.auths[k].inst))
             && Filter(m.leases, m.auths[k].id, m.auths[k].payload) == Forward
    ensures var m := Exec(cfg, hosts, evs);
            var n := m.auths[k].number;
            && Pair.IsSealed(sys.ini, n) && IsPacket(m, t, sh.key, n) && m.tun[t].packet == sys.ini.sent[n - 1]
            && forall u | IsPacket(m, u, sh.key, n) :: u == t
  {
    hide Exec, Safety.InBudget, Safety.Inv, Pair.Reachable, Clients.OnlyClientSeals, Nonces.Registrations, Filter;
    hide Delivers, NumbersAt, Replay.BoundedSkew, PacketBox;
    var m := Exec(cfg, hosts, evs);
    var n := m.auths[k].number;
    Safety.ExecInv(cfg, hosts, evs);
    Safety.ArrivalIsBoxed(cfg, m, k);
    ExecDelivers(cfg, hosts, evs);
    Clients.ArrivedIsSent(cfg, hosts, evs, sh, sys, k);
    HasCapacity(cfg, m);
    var k' := AcceptedOnce(cfg, m, k);
    Safety.ArrivalIsBoxed(cfg, m, k');
    Clients.ArrivedIsSent(cfg, hosts, evs, sh, sys, k');
    t := FirstIsOut(cfg, m, k');
    TunnelHas(cfg, m, t);
    forall u | IsPacket(m, u, sh.key, n) ensures u == t {
      OnlyOne(cfg, hosts, evs, sh.key, n, t, u);
    }
  }

  lemma HasCapacity(cfg: Config, m: Machine)
    requires Safety.Inv(cfg, m) && m.sessions != []
    ensures cfg.capacity > 0
  {
  }

  lemma TunnelHas(cfg: Config, m: Machine, t: nat)
    requires Safety.Inv(cfg, m) && t < |m.tun|
    ensures m.tun[t].first < |m.firsts| && m.firsts[m.tun[t].first] < |m.auths| && m.tun[t].packet == Behind(m, t).payload
  {
    hide Filter;
  }
}
