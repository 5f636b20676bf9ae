/** Which session of an id serves it: the same one until the id is forgotten, another one afterwards. */
module GatewayEpochs {
  import opened Basics
  import opened SessionSpec
  import opened GatewaySpec
  import opened Allocators
  import opened GatewayRuns
  import opened DataWire
  import P = PathSets
  import Replay = ReplaySpec

  /** A session is the current one of its id exactly when the id has not been forgotten since the session
      was built, and sessions of one id are told apart by how often it had been forgotten by then. */
  ghost predicate BornOk(cache: map<SessionId, nat>, sessions: seq<Session>, born: seq<nat>, forgotten: multiset<SessionId>) {
    && |born| == |sessions|
    && (forall id | id in cache ::
          cache[id] < |sessions| && sessions[cache[id]].id == id && born[cache[id]] == forgotten[id])
    && (forall i | 0 <= i < |sessions| :: born[i] <= forgotten[sessions[i].id])
    && (forall i | 0 <= i < |sessions| && born[i] == forgotten[sessions[i].id] ::
          sessions[i].id in cache && cache[sessions[i].id] == i)
    && (forall i, j | 0 <= i < j < |sessions| && sessions[i].id == sessions[j].id :: born[i] < born[j])
  }

  ghost predicate Born(m: Machine) {
    BornOk(m.cache, m.sessions, m.born, m.forgotten)
  }

  lemma ForgetBorn(cache: map<SessionId, nat>, ss: seq<Session>, born: seq<nat>, forgotten: multiset<SessionId>, id: SessionId)
    requires BornOk(cache, ss, born, forgotten)
    ensures BornOk(cache - {id}, ss, born, forgotten + multiset{id})
  {
  }

  lemma BuildBorn(cache: map<SessionId, nat>, ss: seq<Session>, born: seq<nat>, forgotten: multiset<SessionId>, id: SessionId, s: Session)
    requires BornOk(cache, ss, born, forgotten) && id !in cache && s.id == id
    ensures BornOk(cache[id := |ss|], ss + [s], born + [forgotten[id]], forgotten)
  {
  }

  lemma UpdateBorn(cache: map<SessionId, nat>, ss: seq<Session>, born: seq<nat>, forgotten: multiset<SessionId>, i: nat, s: Session)
    requires BornOk(cache, ss, born, forgotten) && i < |ss| && s.id == ss[i].id
    ensures BornOk(cache, ss[i := s], born, forgotten)
  {
    var ss' := ss[i := s];
    assert forall k | 0 <= k < |ss| :: ss'[k].id == ss[k].id;
  }

  /** What is looked up is current. */
  lemma FindBorn(cfg: Config, m: Machine, id: SessionId)
    requires Born(m)
    ensures var (m', i) := Find(cfg, m, id);
            Born(m') && (i.Some? ==> i.value < |m'.sessions| && m'.sessions[i.value].id == id && m'.born[i.value] == m'.forgotten[id])
  {
    hide BornOk;
    if id !in m.cache && id in m.keys {
      var r := New(id, m.keys[id], Responder, cfg.capacity);
      if r.Ok? {
        BuildBorn(m.cache, m.sessions, m.born, m.forgotten, id, r.value);
      }
    }
    FoundIsCurrent(Find(cfg, m, id).0, id);
  }

  lemma FoundIsCurrent(m: Machine, id: SessionId)
    ensures Born(m) && id in m.cache ==>
              m.cache[id] < |m.sessions| && m.sessions[m.cache[id]].id == id && m.cache[id] < |m.born| && m.born[m.cache[id]] == m.forgotten[id]
  {
  }

  lemma DatagramBorn(cfg: Config, m: Machine, wire: Bytes, src: Option<P.AddrPort>)
    requires Born(m)
    ensures Born(DoDatagram(cfg, m, wire, src))
  {
    hide BornOk, Find, ParseHeader;
    if ParseHeader(wire).Ok? {
      FindBorn(cfg, m, ParseHeader(wire).value.id.session);
    }
  }

  lemma ChooseBorn(cfg: Config, m: Machine)
    requires Born(m)
    ensures Born(DoChoose(cfg, m))
  {
    hide BornOk, Find;
    if m.ret.Looked? {
      FindBorn(cfg, m, m.ret.id);
    }
  }

  lemma JudgeBorn(m: Machine)
    requires Born(m)
    ensures Born(DoJudge(m))
  {
    hide BornOk, Replay.Decide;
    if m.recv.Opened? && m.recv.auth < |m.auths| && m.auths[m.recv.auth].inst < |m.sessions| {
      var a := m.auths[m.recv.auth];
      UpdateBorn(m.cache, m.sessions, m.born, m.forgotten, a.inst, Observe(m.sessions[a.inst], a.number));
    }
  }

  lemma NumberBorn(m: Machine)
    requires Born(m)
    ensures Born(DoNumber(m))
  {
    hide BornOk;
    if m.ret.Chosen? && m.ret.inst < |m.sessions| {
      UpdateBorn(m.cache, m.sessions, m.born, m.forgotten, m.ret.inst, Assign(m.sessions[m.ret.inst]));
    }
  }

  lemma StepBorn(cfg: Config, m: Machine, ev: Event)
    requires Born(m)
    ensures Born(Step(cfg, m, ev))
  {
    hide BornOk, DoDatagram, DoJudge, DoPacket, DoChoose, DoNumber, DoSeal, DoDeliver;
    match ev
    case Datagram(wire, src) => DatagramBorn(cfg, m, wire, src);
    case Choose => ChooseBorn(cfg, m);
    case Judge => JudgeBorn(m);
    case Number => NumberBorn(m);
    case SealIt => SealFrame(cfg, m);
    case Packet(packet) => PacketFrame(m, packet);
    case Deliver(accepts) => DeliverFrame(cfg, m, accepts);
    case Forget(id) => ForgetBorn(m.cache, m.sessions, m.born, m.forgotten, id);
    case _ =>
      hide Step;
      HandshakesLeaveSessions(cfg, m, ev);
  }

  lemma {:induction false} ExecBorn(cfg: Config, hosts: seq<Addr>, evs: seq<Event>)
    ensures Born(Exec(cfg, hosts, evs))
  {
    hide Step;
    if evs != [] {
      hide Born;
      ExecBorn(cfg, hosts, evs[..|evs| - 1]);
      StepBorn(cfg, Exec(cfg, hosts, evs[..|evs| - 1]), evs[|evs| - 1]);
    } else {
    }
  }

  // ---- Over a run ------------------------------------------------------------------------------

  /** How often `id` is forgotten in a run. */
  function Forgets(evs: seq<Event>, id: SessionId): nat {
    if evs == [] then 0 else Forgets(evs[..|evs| - 1], id) + if evs[|evs| - 1] == Forget(id) then 1 else 0
  }

  lemma ForgottenStep(cfg: Config, m: Machine, ev: Event, id: SessionId)
    ensures Step(cfg, m, ev).forgotten[id] == m.forgotten[id] + if ev == Forget(id) then 1 else 0
  {
    hide DoHello, DoLease, DoUnwind;
    match ev
    case Hello(id', key) => HelloFrame(m, id', key);
    case Lease(fits) => LeaseFrame(m, fits);
    case Unwind => UnwindFrame(m);
    case Forget(_) =>
    case _ =>
      hide Step;
      TrafficLeavesKeys(cfg, m, ev);
  }

  lemma {:induction false} ForgottenCounts(cfg: Config, hosts: seq<Addr>, evs: seq<Event>, id: SessionId)
    ensures Exec(cfg, hosts, evs).forgotten[id] == Forgets(evs, id)
  {
    hide Step;
    if evs != [] {
      ForgottenCounts(cfg, hosts, evs[..|evs| - 1], id);
      ForgottenStep(cfg, Exec(cfg, hosts, evs[..|evs| - 1]), evs[|evs| - 1], id);
    }
  }

  /** The count stands still exactly while the id is not forgotten. */
  lemma {:induction false} ForgetsBetween(evs: seq<Event>, i: nat, id: SessionId)
    requires i <= |evs|
    ensures Forgets(evs[..i], id) <= Forgets(evs, id)
    ensures Forgets(evs[..i], id) == Forgets(evs, id) <==> forall k | i <= k < |evs| :: evs[k] != Forget(id)
  {
    if i == |evs| {
      assert evs[..i] == evs;
    } else {
      var front := evs[..|evs| - 1];
      assert front[..i] == evs[..i];
      ForgetsBetween(front, i, id);
      assert forall k | i <= k < |front| :: front[k] == evs[k];
    }
  }

  /** Sessions keep their id and their birth. */
  ghost predicate Continues(m: Machine, m': Machine) {
    && |m.sessions| <= |m'.sessions| && |m.born| == |m.sessions| && |m'.born| == |m'.sessions|
    && forall i | 0 <= i < |m.sessions| :: m'.sessions[i].id == m.sessions[i].id && m'.born[i] == m.born[i]
  }

  lemma FindContinues(cfg: Config, m: Machine, id: SessionId)
    requires |m.born| == |m.sessions|
    ensures Continues(m, Find(cfg, m, id).0)
  {
  }

  lemma JudgeContinues(m: Machine)
    requires |m.born| == |m.sessions|
    ensures Continues(m, DoJudge(m))
  {
    hide Replay.Decide;
    JudgeFrame(m);
  }

  lemma NumberContinues(m: Machine)
    requires |m.born| == |m.sessions|
    ensures Continues(m, DoNumber(m))
  {
    NumberFrame(m);
  }

  lemma DatagramContinues(cfg: Config, m: Machine, wire: Bytes, src: Option<P.AddrPort>)
    requires |m.born| == |m.sessions|
    ensures Continues(m, DoDatagram(cfg, m, wire, src))
  {
    hide Find, ParseHeader;
    if ParseHeader(wire).Ok? {
      FindContinues(cfg, m, ParseHeader(wire).value.id.session);
    }
  }

  lemma StepContinues(cfg: Config, m: Machine, ev: Event)
    requires |m.born| == |m.sessions|
    ensures Continues(m, Step(cfg, m, ev))
  {
    hide DoDatagram, DoJudge, DoNumber, DoPacket, DoSeal, DoDeliver, Find;
    match ev
    case Datagram(wire, src) => DatagramContinues(cfg, m, wire, src);
    case Choose => if m.ret.Looked? { FindContinues(cfg, m, m.ret.id); }
    case Judge => JudgeContinues(m);
    case Number => NumberContinues(m);
    case SealIt => SealFrame(cfg, m);
    case Packet(packet) => PacketFrame(m, packet);
    case Deliver(accepts) => DeliverFrame(cfg, m, accepts);
    case _ =>
      hide Step;
      HandshakesLeaveSessions(cfg, m, ev);
  }

  lemma {:induction false} RunContinues(cfg: Config, hosts: seq<Addr>, evs: seq<Event>, i: nat)
    requires i <= |evs|
    ensures Continues(Exec(cfg, hosts, evs[..i]), Exec(cfg, hosts, evs))
  {
    hide Step;
    ExecBorn(cfg, hosts, evs);
    if i == |evs| {
      assert evs[..i] == evs;
    } else {
      assert evs[..|evs| - 1][..i] == evs[..i];
      RunContinues(cfg, hosts, evs[..|evs| - 1], i);
      StepContinues(cfg, Exec(cfg, hosts, evs[..|evs| - 1]), evs[|evs| - 1]);
    }
  }

  /** An id is served by the same session at two moments exactly when it is not forgotten in between. */
  lemma ServedBySameExactly(cfg: Config, hosts: seq<Addr>, evs: seq<Event>, i: nat, id: SessionId)
    requires i <= |evs| && id in Exec(cfg, hosts, evs[..i]).cache && id in Exec(cfg, hosts, evs).cache
    ensures Exec(cfg, hosts, evs[..i]).cache[id] == Exec(cfg, hosts, evs).cache[id]
       <==> forall k | i <= k < |evs| :: evs[k] != Forget(id)
  {
    hide Exec;
    var m, m' := Exec(cfg, hosts, evs[..i]), Exec(cfg, hosts, evs);
    ExecBorn(cfg, hosts, evs[..i]);
    ExecBorn(cfg, hosts, evs);
    RunContinues(cfg, hosts, evs, i);
    ForgottenCounts(cfg, hosts, evs[..i], id);
    ForgottenCounts(cfg, hosts, evs, id);
    ForgetsBetween(evs, i, id);
    FoundIsCurrent(m, id);
    FoundIsCurrent(m', id);
    TwoOfOneId(m', m.cache[id], m'.cache[id]);
  }

  /** Two sessions of one id are the same exactly when it had been forgotten equally often. */
  lemma TwoOfOneId(m: Machine, i: nat, j: nat)
    requires Born(m) && i < |m.sessions| && j < |m.sessions| && m.sessions[i].id == m.sessions[j].id
    ensures i == j <==> m.born[i] == m.born[j]
  {
  }

  // ---- When sessions are looked up -------------------------------------------------------------

  /** After `i` events, session `inst` serves `id`. */
  ghost predicate Serves(cfg: Config, hosts: seq<Addr>, evs: seq<Event>, i: nat, id: SessionId, inst: nat) {
    0 < i <= |evs| && var m := Exec(cfg, hosts, evs[..i]); id in m.cache && m.cache[id] == inst
  }

  /** Event `i` brought the datagram `wire`, session `inst` of `id` was looked up for it, and the receive
      loop has been at that datagram since. */
  ghost predicate Resolving(cfg: Config, hosts: seq<Addr>, evs: seq<Event>, i: nat, id: SessionId, inst: nat, wire: Bytes, src: Option<P.AddrPort>) {
    && Serves(cfg, hosts, evs, i, id, inst)
    && evs[i - 1] == Datagram(wire, src) && Exec(cfg, hosts, evs[..i - 1]).recv == Ready
    && forall p | i <= p <= |evs| :: Exec(cfg, hosts, evs[..p]).recv == Resolved(inst, wire, src)
  }

  /** Arrival `k` is the datagram looked up at event `i` and opened at event `o`. */
  ghost predicate HeardAt(cfg: Config, hosts: seq<Addr>, evs: seq<Event>, k: nat, a: Auth, i: nat, o: nat) {
    && 0 < i <= o < |evs| && evs[o].Open?
    && Resolving(cfg, hosts, evs[..o], i, a.id, a.inst, WireOf(a), a.src)
    && |Exec(cfg, hosts, evs[..o]).auths| == k && |Exec(cfg, hosts, evs[..o + 1]).auths| == k + 1
  }

  /** The return loop works on `packet` through session `inst` of `id`. */
  predicate At(ret: Returning, id: SessionId, packet: Bytes, inst: nat) {
    (ret.Chosen? || ret.Numbered? || ret.Sealed?) && ret.id == id && ret.packet == packet && ret.inst == inst
  }

  /** Event `j` looked up session `inst` of `id` for `packet`, and the return loop has been at it since. */
  ghost predicate Replying(cfg: Config, hosts: seq<Addr>, evs: seq<Event>, j: nat, id: SessionId, packet: Bytes, inst: nat) {
    && Serves(cfg, hosts, evs, j, id, inst)
    && evs[j - 1].Choose? && Exec(cfg, hosts, evs[..j - 1]).ret == Looked(id, packet)
    && forall p | j <= p <= |evs| :: At(Exec(cfg, hosts, evs[..p]).ret, id, packet, inst)
  }

  /** Send `z` is of the reply looked up at event `j` and delivered at event `d`. */
  ghost predicate PickedAt(cfg: Config, hosts: seq<Addr>, evs: seq<Event>, z: nat, s: Send, j: nat, d: nat) {
    && 0 < j <= d < |evs| && evs[d].Deliver?
    && Replying(cfg, hosts, evs[..d], j, s.id, s.packet, s.inst)
    && |Exec(cfg, hosts, evs[..d]).sends| <= z < |Exec(cfg, hosts, evs[..d + 1]).sends|
  }

  ghost predicate Heard(cfg: Config, hosts: seq<Addr>, evs: seq<Event>, k: nat, a: Auth) {
    exists i, o :: HeardAt(cfg, hosts, evs, k, a, i, o)
  }

  ghost predicate Picked(cfg: Config, hosts: seq<Addr>, evs: seq<Event>, z: nat, s: Send) {
    exists j, d :: PickedAt(cfg, hosts, evs, z, s, j, d)
  }

  ghost predicate RecvKnown(cfg: Config, hosts: seq<Addr>, evs: seq<Event>, recv: Receiving, sessions: seq<Session>) {
    recv.Resolved? ==>
      recv.inst < |sessions| && exists i :: Resolving(cfg, hosts, evs, i, sessions[recv.inst].id, recv.inst, recv.wire, recv.src)
  }

  ghost predicate RetKnown(cfg: Config, hosts: seq<Addr>, evs: seq<Event>, ret: Returning) {
    ret.Chosen? || ret.Numbered? || ret.Sealed? ==> exists j :: Replying(cfg, hosts, evs, j, ret.id, ret.packet, ret.inst)
  }

  ghost predicate AllHeard(cfg: Config, hosts: seq<Addr>, evs: seq<Event>, auths: seq<Auth>) {
    forall k | 0 <= k < |auths| :: Heard(cfg, hosts, evs, k, auths[k])
  }

  ghost predicate AllPicked(cfg: Config, hosts: seq<Addr>, evs: seq<Event>, sends: seq<Send>) {
    forall z | 0 <= z < |sends| :: Picked(cfg, hosts, evs, z, sends[z])
  }

  // Prefixes: what was so of a run stays so of every longer one.

  lemma StillServed(cfg: Config, hosts: seq<Addr>, evs: seq<Event>, ev: Event, i: nat, id: SessionId, inst: nat)
    requires Serves(cfg, hosts, evs, i, id, inst)
    ensures Serves(cfg, hosts, evs + [ev], i, id, inst) && (evs + [ev])[i - 1] == evs[i - 1]
    ensures (evs + [ev])[..i - 1] == evs[..i - 1]
  {
    assert (evs + [ev])[..i] == evs[..i];
  }

  lemma StillResolving(cfg: Config, hosts: seq<Addr>, evs: seq<Event>, ev: Event, i: nat, id: SessionId, inst: nat, wire: Bytes, src: Option<P.AddrPort>)
    requires Resolving(cfg, hosts, evs, i, id, inst, wire, src)
    requires Exec(cfg, hosts, evs + [ev]).recv == Resolved(inst, wire, src)
    ensures Resolving(cfg, hosts, evs + [ev], i, id, inst, wire, src)
  {
    hide Exec, Serves;
    var evs' := evs + [ev];
    StillServed(cfg, hosts, evs, ev, i, id, inst);
    forall p | i <= p <= |evs'| ensures Exec(cfg, hosts, evs'[..p]).recv == Resolved(inst, wire, src) {
      assert p <= |evs| ==> evs'[..p] == evs[..p];
      assert p == |evs'| ==> evs'[..p] == evs';
    }
    assert Serves(cfg, hosts, evs', i, id, inst);
  }

  lemma StillReplying(cfg: Config, hosts: seq<Addr>, evs: seq<Event>, ev: Event, j: nat, id: SessionId, packet: Bytes, inst: nat)
    requires Replying(cfg, hosts, evs, j, id, packet, inst) && At(Exec(cfg, hosts, evs + [ev]).ret, id, packet, inst)
    ensures Replying(cfg, hosts, evs + [ev], j, id, packet, inst)
  {
    hide Exec, Serves, At;
    var evs' := evs + [ev];
    StillServed(cfg, hosts, evs, ev, j, id, inst);
    forall p | j <= p <= |evs'| ensures At(Exec(cfg, hosts, evs'[..p]).ret, id, packet, inst) {
      assert p <= |evs| ==> evs'[..p] == evs[..p];
      assert p == |evs'| ==> evs'[..p] == evs';
    }
    assert Serves(cfg, hosts, evs', j, id, inst);
  }

  lemma StillHeard(cfg: Config, hosts: seq<Addr>, evs: seq<Event>, ev: Event, k: nat, a: Auth)
    requires Heard(cfg, hosts, evs, k, a)
    ensures Heard(cfg, hosts, evs + [ev], k, a)
  {
    hide Exec, Resolving;
    var i: nat, o: nat :| HeardAt(cfg, hosts, evs, k, a, i, o);
    assert o < |evs|;
    assert (evs + [ev])[..o] == evs[..o] && (evs + [ev])[..o + 1] == evs[..o + 1];
    assert HeardAt(cfg, hosts, evs + [ev], k, a, i, o);
  }

  lemma StillPicked(cfg: Config, hosts: seq<Addr>, evs: seq<Event>, ev: Event, z: nat, s: Send)
    requires Picked(cfg, hosts, evs, z, s)
    ensures Picked(cfg, hosts, evs + [ev], z, s)
  {
    hide Exec, Replying;
    var j: nat, d: nat :| PickedAt(cfg, hosts, evs, z, s, j, d);
    assert (evs + [ev])[..d] == evs[..d] && (evs + [ev])[..d + 1] == evs[..d + 1];
    assert PickedAt(cfg, hosts, evs + [ev], z, s, j, d);
  }

  lemma MoreHeard(cfg: Config, hosts: seq<Addr>, evs: seq<Event>, ev: Event, auths: seq<Auth>)
    requires AllHeard(cfg, hosts, evs, auths)
    ensures AllHeard(cfg, hosts, evs + [ev], auths)
  {
    hide Heard;
    forall k | 0 <= k < |auths| ensures Heard(cfg, hosts, evs + [ev], k, auths[k]) {
      StillHeard(cfg, hosts, evs, ev, k, auths[k]);
    }
  }

  lemma MorePicked(cfg: Config, hosts: seq<Addr>, evs: seq<Event>, ev: Event, sends: seq<Send>)
    requires AllPicked(cfg, hosts, evs, sends)
    ensures AllPicked(cfg, hosts, evs + [ev], sends)
  {
    hide Picked;
    forall z | 0 <= z < |sends| ensures Picked(cfg, hosts, evs + [ev], z, sends[z]) {
      StillPicked(cfg, hosts, evs, ev, z, sends[z]);
    }
  }

  // What single actions do to the loops.

  /** What a lookup finds is what then serves the id. */
  lemma FindServes(cfg: Config, m: Machine, id: SessionId)
    requires Born(m)
    ensures var (m', i) := Find(cfg, m, id);
            i.Some? ==> i.value < |m'.sessions| && m'.sessions[i.value].id == id && id in m'.cache && m'.cache[id] == i.value
  {
    FindBorn(cfg, m, id);
    hide BornOk;
  }

  lemma DatagramFinds(cfg: Config, m: Machine, wire: Bytes, src: Option<P.AddrPort>)
    requires Born(m)
    ensures var m' := DoDatagram(cfg, m, wire, src);
            && m'.auths == m.auths
            && (m'.recv == m.recv
                || (m.recv == Ready && m'.recv.Resolved? && m'.recv.wire == wire && m'.recv.src == src && m'.recv.inst < |m'.sessions|
                    && var id := m'.sessions[m'.recv.inst].id; id in m'.cache && m'.cache[id] == m'.recv.inst))
  {
    hide Born, Find, ParseHeader;
    DatagramFrame(cfg, m, wire, src);
    if ParseHeader(wire).Ok? {
      FindServes(cfg, m, ParseHeader(wire).value.id.session);
      FindFrame(cfg, m, ParseHeader(wire).value.id.session);
    }
  }

  lemma ChooseFinds(cfg: Config, m: Machine)
    requires Born(m)
    ensures var m' := DoChoose(cfg, m);
            && m'.sends == m.sends
            && (m'.ret == m.ret || m'.ret == Waiting
                || (m'.ret.Chosen? && m.ret == Looked(m'.ret.id, m'.ret.packet)
                    && m'.ret.id in m'.cache && m'.cache[m'.ret.id] == m'.ret.inst))
  {
    hide Born, Find;
    ChooseFrame(cfg, m);
    if m.ret.Looked? {
      FindServes(cfg, m, m.ret.id);
      FindFrame(cfg, m, m.ret.id);
    }
  }

  lemma WireBoxIs(s: Session, wire: Bytes, n: U64)
    requires |wire| >= DATA_HEADER_SIZE
    ensures var box := WireBox(s, wire, n); box.aad + box.ct == wire
  {
  }

  lemma OpenKeepsSession(m: Machine)
    ensures var m' := DoOpen(m);
            && (m'.recv == m.recv || !m'.recv.Resolved?)
            && (m'.auths != m.auths ==>
                  m.recv.Resolved? && m.recv.inst < |m.sessions| && |m'.auths| == |m.auths| + 1 && m.auths <= m'.auths
                  && var a := m'.auths[|m.auths|];
                     a.inst == m.recv.inst && a.id == m.sessions[a.inst].id && a.src == m.recv.src && WireOf(a) == m.recv.wire)
  {
    hide Authenticate, WireBox;
    if m.recv.Resolved? && m.recv.inst < |m.sessions| && |m.recv.wire| >= DATA_HEADER_SIZE {
      var s := m.sessions[m.recv.inst];
      var r := Authenticate(m.vault, s, m.recv.wire);
      if r.Ok? {
        WireBoxIs(s, m.recv.wire, r.value.number);
      }
    }
  }

  lemma JudgeResolvesNone(m: Machine)
    ensures var m' := DoJudge(m); m'.recv == m.recv || !m'.recv.Resolved?
  {
    hide Replay.Decide, Observe;
  }

  lemma NoteResolvesNone(m: Machine)
    ensures var m' := DoNote(m); m'.recv == m.recv || !m'.recv.Resolved?
  {
    hide P.RecordState;
  }

  lemma LetOutResolvesNone(m: Machine, ok: bool)
    ensures var m' := DoLetOut(m, ok); m'.recv == m.recv || !m'.recv.Resolved?
  {
    hide Filter;
  }

  lemma HelloResolvesNone(m: Machine, id: SessionId, key: Bytes)
    ensures var m' := DoHello(m, id, key); m'.recv == m.recv || !m'.recv.Resolved?
  {
  }

  lemma LeaseResolvesNone(m: Machine, fits: bool)
    ensures var m' := DoLease(m, fits); m'.recv == m.recv || !m'.recv.Resolved?
  {
    hide LeaseFor, AllocateIn;
  }

  lemma UnwindResolvesNone(m: Machine)
    ensures var m' := DoUnwind(m); m'.recv == m.recv || !m'.recv.Resolved?
  {
  }

  /** Only a datagram gets a session resolved, and only opening one adds an arrival. */
  lemma OnlyDatagramsResolve(cfg: Config, m: Machine, ev: Event)
    requires !ev.Datagram? && !ev.Open?
    ensures var m' := Step(cfg, m, ev); m'.auths == m.auths && (m'.recv == m.recv || !m'.recv.Resolved?)
  {
    hide DoHello, DoLease, DoUnwind, DoJudge, DoNote, DoLetOut, DoPacket, DoChoose, DoNumber, DoSeal, DoDeliver;
    match ev
    case Hello(id, key) => HelloFrame(m, id, key); HelloResolvesNone(m, id, key);
    case Lease(fits) => LeaseFrame(m, fits); LeaseResolvesNone(m, fits);
    case Unwind => UnwindFrame(m); UnwindResolvesNone(m);
    case Judge => JudgeFrame(m); JudgeResolvesNone(m);
    case Note => NoteFrame(m); NoteResolvesNone(m);
    case LetOut(ok) => LetOutFrame(m, ok); LetOutResolvesNone(m, ok);
    case Packet(packet) => PacketFrame(m, packet);
    case Choose => ChooseFrame(cfg, m);
    case Number => NumberFrame(m);
    case SealIt => SealFrame(cfg, m);
    case Deliver(accepts) => DeliverFrame(cfg, m, accepts);
    case Tick(_) =>
    case Forget(_) =>
    case Outside(_, _) =>
  }

  lemma {:induction false} CopiesAlike(s: Send, dsts: seq<P.AddrPort>, accepts: P.AddrPort -> bool, z: nat)
    requires z < |Copies(s, dsts, accepts)|
    ensures Copies(s, dsts, accepts)[z] == s.(to := Copies(s, dsts, accepts)[z].to)
  {
    var rest := Copies(s, dsts[..|dsts| - 1], accepts);
    if z < |rest| {
      CopiesAlike(s, dsts[..|dsts| - 1], accepts, z);
    }
  }

  lemma PacketReplies(m: Machine, packet: Bytes)
    ensures var m' := DoPacket(m, packet); m'.ret == m.ret || m'.ret.Looked?
  {
    hide ParseIPv4;
  }

  lemma NumberReplies(m: Machine)
    ensures var m' := DoNumber(m); m'.ret == m.ret || m'.ret == Waiting || At(m.ret, m'.ret.id, m'.ret.packet, m'.ret.inst)
  {
    hide Assign;
  }

  lemma SealReplies(cfg: Config, m: Machine)
    ensures var m' := DoSeal(cfg, m); m'.ret == m.ret || At(m.ret, m'.ret.id, m'.ret.packet, m'.ret.inst)
  {
    hide PacketBox;
  }

  /** Between choosing a session and sending, the return loop keeps to it. */
  lemma ReplyKeepsSession(cfg: Config, m: Machine, ev: Event)
    requires !ev.Choose? && !ev.Deliver?
    ensures var m' := Step(cfg, m, ev);
            && m'.sends == m.sends
            && (m'.ret.Chosen? || m'.ret.Numbered? || m'.ret.Sealed? ==> At(m.ret, m'.ret.id, m'.ret.packet, m'.ret.inst))
  {
    hide DoHello, DoLease, DoUnwind, DoDatagram, DoOpen, DoJudge, DoNote, DoLetOut, DoPacket, DoNumber, DoSeal;
    match ev
    case Hello(id, key) => HelloFrame(m, id, key);
    case Lease(fits) => LeaseFrame(m, fits);
    case Unwind => UnwindFrame(m);
    case Datagram(wire, src) => DatagramFrame(cfg, m, wire, src);
    case Open => OpenFrame(m);
    case Judge => JudgeFrame(m);
    case Note => NoteFrame(m);
    case LetOut(ok) => LetOutFrame(m, ok);
    case Packet(packet) => PacketFrame(m, packet); PacketReplies(m, packet);
    case Number => NumberFrame(m); NumberReplies(m);
    case SealIt => SealFrame(cfg, m); SealReplies(cfg, m);
    case Tick(_) =>
    case Forget(_) =>
    case Outside(_, _) =>
  }

  lemma DeliverReplies(cfg: Config, m: Machine, accepts: P.AddrPort -> bool, z: nat)
    requires |m.sends| <= z < |DoDeliver(cfg, m, accepts).sends|
    ensures var s := DoDeliver(cfg, m, accepts).sends[z]; At(m.ret, s.id, s.packet, s.inst)
  {
    hide PacketWire, P.PruneState, P.FreshIn, Copies;
    var r := m.ret;
    var s := Send(r.id, r.inst, r.number, r.packet, PacketWire(cfg.enc, m.sessions[r.inst], r.number, r.packet),
                  P.AddrPort([], 0), m.clock);
    CopiesAlike(s, P.FreshIn(m.paths, r.id, m.clock - cfg.ttl), accepts, z - |m.sends|);
  }

  lemma DeliverExtends(cfg: Config, m: Machine, accepts: P.AddrPort -> bool)
    ensures var m' := DoDeliver(cfg, m, accepts); m.sends <= m'.sends && (m'.ret == m.ret || m'.ret == Waiting)
  {
    hide PacketWire, P.PruneState, P.FreshIn, Copies;
  }

  // Over a run.

  lemma ExecLast(cfg: Config, hosts: seq<Addr>, front: seq<Event>, ev: Event)
    ensures var evs := front + [ev];
            && evs[..|front|] == front && evs[..|front| + 1] == evs && evs[|front|] == ev
            && Exec(cfg, hosts, evs) == Step(cfg, Exec(cfg, hosts, front), ev)
  {
    assert (front + [ev])[..|front|] == front;
  }

  lemma DatagramHeard(cfg: Config, hosts: seq<Addr>, front: seq<Event>, wire: Bytes, src: Option<P.AddrPort>)
    requires var m := Exec(cfg, hosts, front); RecvKnown(cfg, hosts, front, m.recv, m.sessions)
    ensures var evs := front + [Datagram(wire, src)];
            var m' := Exec(cfg, hosts, evs); RecvKnown(cfg, hosts, evs, m'.recv, m'.sessions)
  {
    hide Exec, Born, DoDatagram;
    var m, ev := Exec(cfg, hosts, front), Datagram(wire, src);
    ExecLast(cfg, hosts, front, ev);
    var m' := Exec(cfg, hosts, front + [ev]);
    ExecBorn(cfg, hosts, front);
    DatagramFinds(cfg, m, wire, src);
    if m'.recv == m.recv {
      CarryRecv(cfg, hosts, front, ev);
    } else {
      NowResolving(cfg, hosts, front, wire, src, m'.recv.inst);
    }
  }

  lemma NowResolving(cfg: Config, hosts: seq<Addr>, front: seq<Event>, wire: Bytes, src: Option<P.AddrPort>, inst: nat)
    requires var m' := Exec(cfg, hosts, front + [Datagram(wire, src)]);
             && Exec(cfg, hosts, front).recv == Ready && m'.recv == Resolved(inst, wire, src) && inst < |m'.sessions|
             && var id := m'.sessions[inst].id; id in m'.cache && m'.cache[id] == inst
    ensures var evs := front + [Datagram(wire, src)];
            Resolving(cfg, hosts, evs, |evs|, Exec(cfg, hosts, evs).sessions[inst].id, inst, wire, src)
  {
    hide Exec;
    var evs := front + [Datagram(wire, src)];
    assert evs[..|front|] == front && evs[..|evs|] == evs;
  }

  /** A session that is being resolved stays known while the loop is at it. */
  lemma CarryRecv(cfg: Config, hosts: seq<Addr>, front: seq<Event>, ev: Event)
    requires var m, m' := Exec(cfg, hosts, front), Exec(cfg, hosts, front + [ev]);
             RecvKnown(cfg, hosts, front, m.recv, m.sessions) && (m'.recv == m.recv || !m'.recv.Resolved?)
    ensures var m' := Exec(cfg, hosts, front + [ev]); RecvKnown(cfg, hosts, front + [ev], m'.recv, m'.sessions)
  {
    hide Exec, Resolving;
    var m, m' := Exec(cfg, hosts, front), Exec(cfg, hosts, front + [ev]);
    if m'.recv.Resolved? {
      var r := m.recv;
      var i: nat :| Resolving(cfg, hosts, front, i, m.sessions[r.inst].id, r.inst, r.wire, r.src);
      StillResolving(cfg, hosts, front, ev, i, m.sessions[r.inst].id, r.inst, r.wire, r.src);
      SameIds(cfg, hosts, front, ev);
    }
  }

  lemma SameIds(cfg: Config, hosts: seq<Addr>, front: seq<Event>, ev: Event)
    ensures Continues(Exec(cfg, hosts, front), Exec(cfg, hosts, front + [ev]))
  {
    hide Exec, Continues;
    ExecLast(cfg, hosts, front, ev);
    RunContinues(cfg, hosts, front + [ev], |front|);
  }

  lemma OpenHeard(cfg: Config, hosts: seq<Addr>, front: seq<Event>)
    requires var m := Exec(cfg, hosts, front); RecvKnown(cfg, hosts, front, m.recv, m.sessions) && AllHeard(cfg, hosts, front, m.auths)
    ensures var evs := front + [Event.Open];
            var m' := Exec(cfg, hosts, evs);
            AllHeard(cfg, hosts, evs, m'.auths) && (m'.recv == Exec(cfg, hosts, front).recv || !m'.recv.Resolved?)
  {
    hide Exec, Resolving, DoOpen, AllHeard;
    var m, evs := Exec(cfg, hosts, front), front + [Event.Open];
    var m' := Exec(cfg, hosts, evs);
    ExecLast(cfg, hosts, front, Event.Open);
    OpenKeepsSession(m);
    MoreHeard(cfg, hosts, front, Event.Open, m.auths);
    if m'.auths != m.auths {
      var a, r := m'.auths[|m.auths|], m.recv;
      var i: nat :| Resolving(cfg, hosts, front, i, m.sessions[r.inst].id, r.inst, r.wire, r.src);
      NowHeard(cfg, hosts, front, a, i);
      OneMoreHeard(cfg, hosts, evs, m.auths, m'.auths);
    }
  }

  lemma NowHeard(cfg: Config, hosts: seq<Addr>, front: seq<Event>, a: Auth, i: nat)
    requires Resolving(cfg, hosts, front, i, a.id, a.inst, WireOf(a), a.src)
    requires |Exec(cfg, hosts, front + [Event.Open]).auths| == |Exec(cfg, hosts, front).auths| + 1
    ensures Heard(cfg, hosts, front + [Event.Open], |Exec(cfg, hosts, front).auths|, a)
  {
    hide Exec;
    var evs := front + [Event.Open];
    assert 0 < i <= |front|;
    hide Resolving;
    assert evs[..|front|] == front && evs[..|front| + 1] == evs;
    assert HeardAt(cfg, hosts, evs, |Exec(cfg, hosts, front).auths|, a, i, |front|);
  }

  lemma OneMoreHeard(cfg: Config, hosts: seq<Addr>, evs: seq<Event>, auths: seq<Auth>, auths': seq<Auth>)
    requires AllHeard(cfg, hosts, evs, auths) && auths <= auths' && |auths'| == |auths| + 1
    requires Heard(cfg, hosts, evs, |auths|, auths'[|auths|])
    ensures AllHeard(cfg, hosts, evs, auths')
  {
    hide Heard;
  }

  lemma StepHeard(cfg: Config, hosts: seq<Addr>, front: seq<Event>, ev: Event)
    requires var m := Exec(cfg, hosts, front); RecvKnown(cfg, hosts, front, m.recv, m.sessions) && AllHeard(cfg, hosts, front, m.auths)
    ensures var m' := Exec(cfg, hosts, front + [ev]);
            RecvKnown(cfg, hosts, front + [ev], m'.recv, m'.sessions) && AllHeard(cfg, hosts, front + [ev], m'.auths)
  {
    hide Exec, RecvKnown, AllHeard, Step, Born, DoDatagram;
    var m := Exec(cfg, hosts, front);
    if ev.Datagram? {
      DatagramHeard(cfg, hosts, front, ev.wire, ev.src);
      DatagramArrivals(cfg, hosts, front, ev.wire, ev.src);
      MoreHeard(cfg, hosts, front, ev, m.auths);
    } else if ev.Open? {
      OpenHeard(cfg, hosts, front);
      CarryRecv(cfg, hosts, front, ev);
    } else {
      ExecLast(cfg, hosts, front, ev);
      OnlyDatagramsResolve(cfg, m, ev);
      CarryRecv(cfg, hosts, front, ev);
      MoreHeard(cfg, hosts, front, ev, m.auths);
    }
  }

  lemma DatagramArrivals(cfg: Config, hosts: seq<Addr>, front: seq<Event>, wire: Bytes, src: Option<P.AddrPort>)
    ensures Exec(cfg, hosts, front + [Datagram(wire, src)]).auths == Exec(cfg, hosts, front).auths
  {
    hide Exec, DoDatagram;
    ExecLast(cfg, hosts, front, Datagram(wire, src));
    DatagramFrame(cfg, Exec(cfg, hosts, front), wire, src);
  }

  lemma CarryRet(cfg: Config, hosts: seq<Addr>, front: seq<Event>, ev: Event)
    requires var m, m' := Exec(cfg, hosts, front), Exec(cfg, hosts, front + [ev]);
             && RetKnown(cfg, hosts, front, m.ret)
             && (m'.ret.Chosen? || m'.ret.Numbered? || m'.ret.Sealed? ==> At(m.ret, m'.ret.id, m'.ret.packet, m'.ret.inst))
    ensures RetKnown(cfg, hosts, front + [ev], Exec(cfg, hosts, front + [ev]).ret)
  {
    hide Exec, Replying;
    var r := Exec(cfg, hosts, front + [ev]).ret;
    if r.Chosen? || r.Numbered? || r.Sealed? {
      var j: nat :| Replying(cfg, hosts, front, j, r.id, r.packet, r.inst);
      StillReplying(cfg, hosts, front, ev, j, r.id, r.packet, r.inst);
    }
  }

  lemma NowReplying(cfg: Config, hosts: seq<Addr>, front: seq<Event>, id: SessionId, packet: Bytes, inst: nat)
    requires var m' := Exec(cfg, hosts, front + [Choose]);
             && Exec(cfg, hosts, front).ret == Looked(id, packet) && m'.ret == Chosen(id, packet, inst)
             && id in m'.cache && m'.cache[id] == inst
    ensures Replying(cfg, hosts, front + [Choose], |front| + 1, id, packet, inst)
  {
    hide Exec;
    var evs := front + [Choose];
    assert evs[..|front|] == front && evs[..|evs|] == evs;
  }

  lemma ChoosePicked(cfg: Config, hosts: seq<Addr>, front: seq<Event>)
    requires RetKnown(cfg, hosts, front, Exec(cfg, hosts, front).ret)
    ensures var m, m' := Exec(cfg, hosts, front), Exec(cfg, hosts, front + [Choose]);
            RetKnown(cfg, hosts, front + [Choose], m'.ret) && m'.sends == m.sends
  {
    hide Exec, Born, DoChoose, Replying;
    var m := Exec(cfg, hosts, front);
    ExecLast(cfg, hosts, front, Choose);
    ExecBorn(cfg, hosts, front);
    ChooseFinds(cfg, m);
    var r := Exec(cfg, hosts, front + [Choose]).ret;
    if r == m.ret || r == Waiting {
      CarryRet(cfg, hosts, front, Choose);
    } else {
      NowReplying(cfg, hosts, front, r.id, r.packet, r.inst);
    }
  }

  lemma NowPicked(cfg: Config, hosts: seq<Addr>, front: seq<Event>, accepts: P.AddrPort -> bool, z: nat)
    requires RetKnown(cfg, hosts, front, Exec(cfg, hosts, front).ret)
    requires |Exec(cfg, hosts, front).sends| <= z < |Exec(cfg, hosts, front + [Deliver(accepts)]).sends|
    ensures Picked(cfg, hosts, front + [Deliver(accepts)], z, Exec(cfg, hosts, front + [Deliver(accepts)]).sends[z])
  {
    hide Exec, DoDeliver;
    var m, evs := Exec(cfg, hosts, front), front + [Deliver(accepts)];
    ExecLast(cfg, hosts, front, Deliver(accepts));
    var s := Exec(cfg, hosts, evs).sends[z];
    DeliverReplies(cfg, m, accepts, z);
    var j: nat :| Replying(cfg, hosts, front, j, s.id, s.packet, s.inst);
    assert 0 < j <= |front|;
    assert PickedAt(cfg, hosts, evs, z, s, j, |front|);
  }

  lemma DeliverPicked(cfg: Config, hosts: seq<Addr>, front: seq<Event>, accepts: P.AddrPort -> bool)
    requires var m := Exec(cfg, hosts, front); RetKnown(cfg, hosts, front, m.ret) && AllPicked(cfg, hosts, front, m.sends)
    ensures var evs := front + [Deliver(accepts)];
            var m' := Exec(cfg, hosts, evs); RetKnown(cfg, hosts, evs, m'.ret) && AllPicked(cfg, hosts, evs, m'.sends)
  {
    hide Exec, DoDeliver, RetKnown, Picked;
    var m, ev := Exec(cfg, hosts, front), Deliver(accepts);
    var m' := Exec(cfg, hosts, front + [ev]);
    ExecLast(cfg, hosts, front, ev);
    DeliverExtends(cfg, m, accepts);
    CarryRet(cfg, hosts, front, ev);
    MorePicked(cfg, hosts, front, ev, m.sends);
    forall z | |m.sends| <= z < |m'.sends| ensures Picked(cfg, hosts, front + [ev], z, m'.sends[z]) {
      NowPicked(cfg, hosts, front, accepts, z);
    }
  }

  lemma StepPicked(cfg: Config, hosts: seq<Addr>, front: seq<Event>, ev: Event)
    requires var m := Exec(cfg, hosts, front); RetKnown(cfg, hosts, front, m.ret) && AllPicked(cfg, hosts, front, m.sends)
    ensures var m' := Exec(cfg, hosts, front + [ev]);
            RetKnown(cfg, hosts, front + [ev], m'.ret) && AllPicked(cfg, hosts, front + [ev], m'.sends)
  {
    hide Exec, RetKnown, AllPicked, Step;
    var m := Exec(cfg, hosts, front);
    if ev.Choose? {
      ChoosePicked(cfg, hosts, front);
      MorePicked(cfg, hosts, front, ev, m.sends);
    } else if ev.Deliver? {
      DeliverPicked(cfg, hosts, front, ev.accepts);
    } else {
      ExecLast(cfg, hosts, front, ev);
      ReplyKeepsSession(cfg, m, ev);
      CarryRet(cfg, hosts, front, ev);
      MorePicked(cfg, hosts, front, ev, m.sends);
    }
  }

  /** Every arrival and every send goes back to the lookup of its own that found its session current. */
  lemma {:induction false} ExecLookups(cfg: Config, hosts: seq<Addr>, evs: seq<Event>)
    ensures var m := Exec(cfg, hosts, evs);
            && RecvKnown(cfg, hosts, evs, m.recv, m.sessions) && AllHeard(cfg, hosts, evs, m.auths)
            && RetKnown(cfg, hosts, evs, m.ret) && AllPicked(cfg, hosts, evs, m.sends)
  {
    hide Step;
    if evs != [] {
      var front := evs[..|evs| - 1];
      assert evs == front + [evs[|evs| - 1]];
      ExecLookups(cfg, hosts, front);
      hide Exec, RecvKnown, AllHeard, RetKnown, AllPicked;
      StepHeard(cfg, hosts, front, evs[|evs| - 1]);
      StepPicked(cfg, hosts, front, evs[|evs| - 1]);
    }
  }

  /** The id is not forgotten between two moments. */
  ghost predicate Undisturbed(evs: seq<Event>, i: nat, j: nat, id: SessionId) {
    forall k | 0 <= k < |evs| && (i <= k < j || j <= k < i) :: evs[k] != Forget(id)
  }

  /** So two sessions that serve an id at two moments are the same exactly when it is not forgotten in
      between, whichever came first. */
  lemma SameExactly(cfg: Config, hosts: seq<Addr>, evs: seq<Event>, i: nat, j: nat, id: SessionId, x: nat, y: nat)
    requires Serves(cfg, hosts, evs, i, id, x) && Serves(cfg, hosts, evs, j, id, y)
    ensures x == y <==> Undisturbed(evs, i, j, id)
  {
    hide Exec;
    var lo, hi := if i <= j then i else j, if i <= j then j else i;
    assert evs[..hi][..lo] == evs[..lo];
    ServedBySameExactly(cfg, hosts, evs[..hi], lo, id);
    assert forall k | lo <= k < hi :: evs[..hi][k] == evs[k];
  }

  lemma ServedInPrefix(cfg: Config, hosts: seq<Addr>, evs: seq<Event>, n: nat, i: nat, id: SessionId, inst: nat)
    requires n <= |evs| && Serves(cfg, hosts, evs[..n], i, id, inst)
    ensures Serves(cfg, hosts, evs, i, id, inst)
  {
    assert evs[..n][..i] == evs[..i];
  }

  /** For every arrival and every return frame of one id: the frame was sealed by the session that had
      authenticated the arrival exactly when the id was not forgotten between the lookup for the one, at
      event `i`, and the lookup for the other, at event `j`. */
  lemma SenderOfSameSession(cfg: Config, hosts: seq<Addr>, evs: seq<Event>, k: nat, z: nat) returns (i: nat, o: nat, j: nat, d: nat)
    requires var m := Exec(cfg, hosts, evs); k < |m.auths| && z < |m.sends| && m.auths[k].id == m.sends[z].id
    ensures var m := Exec(cfg, hosts, evs);
            var a, s := m.auths[k], m.sends[z];
            && HeardAt(cfg, hosts, evs, k, a, i, o) && PickedAt(cfg, hosts, evs, z, s, j, d)
            && (a.inst == s.inst <==> Undisturbed(evs, i, j, s.id))
  {
    hide Exec, Serves;
    var m := Exec(cfg, hosts, evs);
    var a, s := m.auths[k], m.sends[z];
    ExecLookups(cfg, hosts, evs);
    assert Heard(cfg, hosts, evs, k, a) && Picked(cfg, hosts, evs, z, s);
    i, o :| HeardAt(cfg, hosts, evs, k, a, i, o);
    j, d :| PickedAt(cfg, hosts, evs, z, s, j, d);
    ServedInPrefix(cfg, hosts, evs, o, i, a.id, a.inst);
    ServedInPrefix(cfg, hosts, evs, d, j, s.id, s.inst);
    SameExactly(cfg, hosts, evs, i, j, s.id, a.inst, s.inst);
  }
}
