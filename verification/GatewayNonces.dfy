/** Nonces on the gateway side: over every run, which replies are sealed under one key with one
    nonce, and why fresh session keys rule that out. */
module GatewayNonces {
  import opened Basics
  import opened DataWire
  import opened SessionSpec
  import opened GatewaySpec
  import opened Allocators
  import opened GatewayRuns
  import opened GatewaySafety
  import P = PathSets
  import Replay = ReplaySpec

  // ---- One session per registration ------------------------------------------------------------

  /** Of a key that is registered at most once: at most one id has it and at most one session, and that
      session is the cached one of that id. */
  ghost predicate KeyOk(key: Bytes, keys: Keys, cache: map<SessionId, nat>, sessions: seq<Session>, used: set<Bytes>) {
    && (key !in used ==>
          && (forall id | id in keys :: keys[id] != key)
          && (forall i | 0 <= i < |sessions| :: sessions[i].key != key))
    && (forall id, id' | id in keys && id' in keys && keys[id] == key == keys[id'] :: id == id')
    && (forall i, j | 0 <= i < |sessions| && 0 <= j < |sessions| && sessions[i].key == key == sessions[j].key :: i == j)
    && (forall id, i | id in keys && keys[id] == key && 0 <= i < |sessions| && sessions[i].key == key ::
          id in cache && cache[id] == i)
  }

  lemma HelloKey(key: Bytes, keys: Keys, cache: map<SessionId, nat>, ss: seq<Session>, used: set<Bytes>, id: SessionId, key': Bytes)
    requires KeyOk(key, keys, cache, ss, used) && (key' == key ==> key !in used) && id !in keys
    ensures KeyOk(key, keys[id := key'], cache, ss, used + {key'})
  {
  }

  lemma DropKey(key: Bytes, keys: Keys, cache: map<SessionId, nat>, ss: seq<Session>, used: set<Bytes>, id: SessionId)
    requires KeyOk(key, keys, cache, ss, used)
    ensures KeyOk(key, keys - {id}, cache, ss, used) && KeyOk(key, keys - {id}, cache - {id}, ss, used)
  {
  }

  lemma BuildKey(key: Bytes, keys: Keys, cache: map<SessionId, nat>, ss: seq<Session>, used: set<Bytes>, id: SessionId, s: Session)
    requires KeyOk(key, keys, cache, ss, used) && id in keys && id !in cache && s.key == keys[id]
    ensures KeyOk(key, keys, cache[id := |ss|], ss + [s], used)
  {
    if s.key == key {
      assert forall i | 0 <= i < |ss| :: ss[i].key != key;
    }
  }

  lemma UpdateKey(key: Bytes, keys: Keys, cache: map<SessionId, nat>, ss: seq<Session>, used: set<Bytes>, i: nat, s: Session)
    requires KeyOk(key, keys, cache, ss, used) && i < |ss| && s.key == ss[i].key
    ensures KeyOk(key, keys, cache, ss[i := s], used)
  {
    var ss' := ss[i := s];
    assert forall k | 0 <= k < |ss| :: ss'[k].key == ss[k].key;
  }

  ghost predicate KeyOkIn(key: Bytes, m: Machine) {
    KeyOk(key, m.keys, m.cache, m.sessions, m.used)
  }

  lemma FindKey(cfg: Config, m: Machine, id: SessionId, key: Bytes)
    requires KeyOkIn(key, m)
    ensures KeyOkIn(key, Find(cfg, m, id).0)
  {
    hide KeyOk;
    if id !in m.cache && id in m.keys {
      var r := New(id, m.keys[id], Responder, cfg.capacity);
      if r.Ok? {
        BuildKey(key, m.keys, m.cache, m.sessions, m.used, id, r.value);
      }
    }
  }

  /** The action registers `key`. */
  predicate Registers(m: Machine, ev: Event, key: Bytes) {
    ev.Hello? && ev.key == key && m.recv == Ready && ev.id !in m.keys
  }

  lemma HelloUsed(m: Machine, id: SessionId, key': Bytes, key: Bytes)
    requires KeyOkIn(key, m) && (Registers(m, Hello(id, key'), key) ==> key !in m.used)
    ensures KeyOkIn(key, DoHello(m, id, key'))
  {
    hide KeyOk;
    if m.recv == Ready && id !in m.keys {
      HelloKey(key, m.keys, m.cache, m.sessions, m.used, id, key');
    }
  }

  lemma UnwindUsed(m: Machine, key: Bytes)
    requires KeyOkIn(key, m)
    ensures KeyOkIn(key, DoUnwind(m))
  {
    hide KeyOk;
    if m.recv.Refusing? {
      DropKey(key, m.keys, m.cache, m.sessions, m.used, m.recv.id);
    }
  }

  lemma DatagramUsed(cfg: Config, m: Machine, wire: Bytes, src: Option<P.AddrPort>, key: Bytes)
    requires KeyOkIn(key, m)
    ensures KeyOkIn(key, DoDatagram(cfg, m, wire, src))
  {
    hide KeyOk, Find, ParseHeader;
    if ParseHeader(wire).Ok? {
      FindKey(cfg, m, ParseHeader(wire).value.id.session, key);
    }
  }

  lemma ChooseUsed(cfg: Config, m: Machine, key: Bytes)
    requires KeyOkIn(key, m)
    ensures KeyOkIn(key, DoChoose(cfg, m))
  {
    hide KeyOk, Find;
    if m.ret.Looked? {
      FindKey(cfg, m, m.ret.id, key);
    }
  }

  lemma JudgeUsed(m: Machine, key: Bytes)
    requires KeyOkIn(key, m)
    ensures KeyOkIn(key, DoJudge(m))
  {
    hide KeyOk, Replay.Decide;
    if m.recv.Opened? && m.recv.auth < |m.auths| && m.auths[m.recv.auth].inst < |m.sessions| {
      var a := m.auths[m.recv.auth];
      UpdateKey(key, m.keys, m.cache, m.sessions, m.used, a.inst, Observe(m.sessions[a.inst], a.number));
    }
  }

  lemma NumberUsed(m: Machine, key: Bytes)
    requires KeyOkIn(key, m)
    ensures KeyOkIn(key, DoNumber(m))
  {
    hide KeyOk;
    if m.ret.Chosen? && m.ret.inst < |m.sessions| {
      UpdateKey(key, m.keys, m.cache, m.sessions, m.used, m.ret.inst, Assign(m.sessions[m.ret.inst]));
    }
  }

  lemma StepKey(cfg: Config, m: Machine, ev: Event, key: Bytes)
    requires KeyOkIn(key, m) && (Registers(m, ev, key) ==> key !in m.used)
    ensures KeyOkIn(key, Step(cfg, m, ev))
  {
    hide KeyOk;
    hide DoHello, DoLease, DoUnwind, DoDatagram, DoOpen, DoJudge, DoNote, DoLetOut, DoPacket, DoChoose, DoNumber, DoSeal, DoDeliver;
    match ev
    case Hello(id, key') => HelloUsed(m, id, key', key);
    case Lease(fits) => LeaseFrame(m, fits);
    case Unwind => UnwindUsed(m, key);
    case Forget(id) => DropKey(key, m.keys, m.cache, m.sessions, m.used, id);
    case Datagram(wire, src) => DatagramUsed(cfg, m, wire, src, key);
    case Choose => ChooseUsed(cfg, m, key);
    case Judge => JudgeUsed(m, key);
    case Number => NumberUsed(m, key);
    case Packet(packet) => PacketFrame(m, packet);
    case SealIt => SealFrame(cfg, m);
    case Deliver(accepts) => DeliverFrame(cfg, m, accepts);
    case Open => OpenFrame(m);
    case Note => NoteFrame(m);
    case LetOut(ok) => LetOutFrame(m, ok);
    case Tick(_) =>
    case Outside(_, _) =>
  }

  /** How often a run registers `key`; a handshake that finds its id taken registers nothing. */
  function Registrations(cfg: Config, hosts: seq<Addr>, evs: seq<Event>, key: Bytes): nat {
    if evs == [] then 0
    else
      var front := evs[..|evs| - 1];
      Registrations(cfg, hosts, front, key) + if Registers(Exec(cfg, hosts, front), evs[|evs| - 1], key) then 1 else 0
  }

  lemma UsedStep(cfg: Config, m: Machine, ev: Event, key: Bytes)
    ensures key in Step(cfg, m, ev).used <==> key in m.used || Registers(m, ev, key)
  {
    hide DoLease, DoUnwind;
    match ev
    case Hello(_, _) =>
    case Lease(fits) => LeaseFrame(m, fits);
    case Unwind => UnwindFrame(m);
    case Forget(_) =>
    case _ =>
      hide Step;
      TrafficLeavesKeys(cfg, m, ev);
  }

  lemma {:induction false} UsedIsRegistered(cfg: Config, hosts: seq<Addr>, evs: seq<Event>, key: Bytes)
    ensures key in Exec(cfg, hosts, evs).used <==> Registrations(cfg, hosts, evs, key) > 0
  {
    hide Step, Registers;
    if evs != [] {
      UsedIsRegistered(cfg, hosts, evs[..|evs| - 1], key);
      UsedStep(cfg, Exec(cfg, hosts, evs[..|evs| - 1]), evs[|evs| - 1], key);
    }
  }

  /** A key registered at most once belongs to at most one session of the whole run. */
  lemma {:induction false} ExecKey(cfg: Config, hosts: seq<Addr>, evs: seq<Event>, key: Bytes)
    requires Registrations(cfg, hosts, evs, key) <= 1
    ensures KeyOkIn(key, Exec(cfg, hosts, evs))
  {
    hide Step, Registers;
    if evs != [] {
      var front := evs[..|evs| - 1];
      ExecKey(cfg, hosts, front, key);
      UsedIsRegistered(cfg, hosts, front, key);
      hide KeyOkIn;
      StepKey(cfg, Exec(cfg, hosts, front), evs[|evs| - 1], key);
    }
  }

  /** Each handshake derives a key no earlier handshake derived. */
  ghost predicate FreshKeys(evs: seq<Event>) {
    forall i, j | 0 <= i < j < |evs| && evs[i].Hello? && evs[j].Hello? :: evs[i].key != evs[j].key
  }

  lemma {:induction false} NeverDerived(cfg: Config, hosts: seq<Addr>, evs: seq<Event>, key: Bytes)
    requires forall i | 0 <= i < |evs| && evs[i].Hello? :: evs[i].key != key
    ensures Registrations(cfg, hosts, evs, key) == 0
  {
    hide Exec;
    if evs != [] {
      NeverDerived(cfg, hosts, evs[..|evs| - 1], key);
    }
  }

  /** Then no key is registered twice. */
  lemma {:induction false} FreshKeysRegisterOnce(cfg: Config, hosts: seq<Addr>, evs: seq<Event>, key: Bytes)
    requires FreshKeys(evs)
    ensures Registrations(cfg, hosts, evs, key) <= 1
  {
    hide Exec;
    if evs != [] {
      var front, last := evs[..|evs| - 1], evs[|evs| - 1];
      if last.Hello? && last.key == key {
        NeverDerived(cfg, hosts, front, key);
      } else {
        FreshKeysRegisterOnce(cfg, hosts, front, key);
      }
    }
  }

  // ---- The first reply of a session ------------------------------------------------------------

  /** The first number of session `i` has been sealed. */
  ghost predicate HasFirst(seals: seq<Seal>, i: nat) {
    exists y :: 0 <= y < |seals| && seals[y].inst == i && seals[y].number == 1
  }

  /** A session that has taken a number has sealed number 1, or is about to. */
  ghost predicate FirstOk(sessions: seq<Session>, seals: seq<Seal>, ret: Returning) {
    && (forall i | 0 <= i < |sessions| && sessions[i].next > 0 ::
          HasFirst(seals, i) || (ret.Numbered? && ret.inst == i && ret.number == 1))
    && (forall z | 0 <= z < |seals| :: HasFirst(seals, seals[z].inst))
    && (ret.Numbered? ==> ret.inst < |sessions| && sessions[ret.inst].next == ret.number && ret.number > 0)
  }

  lemma FindFirst(cfg: Config, m: Machine, id: SessionId)
    requires FirstOk(m.sessions, m.seals, m.ret)
    ensures var m' := Find(cfg, m, id).0; FirstOk(m'.sessions, m.seals, m.ret) && m'.seals == m.seals && m'.ret == m.ret
  {
    hide HasFirst;
  }

  lemma SealFirst(ss: seq<Session>, seals: seq<Seal>, r: Returning)
    requires FirstOk(ss, seals, r) && r.Numbered?
    ensures FirstOk(ss, seals + [Seal(r.inst, r.number, r.packet)], Sealed(r.id, r.packet, r.inst, r.number))
  {
    var seals' := seals + [Seal(r.inst, r.number, r.packet)];
    forall i | HasFirst(seals, i) ensures HasFirst(seals', i) {
      var y :| 0 <= y < |seals| && seals[y].inst == i && seals[y].number == 1;
      assert seals'[y] == seals[y];
    }
    if r.number == 1 {
      assert seals'[|seals|].inst == r.inst && seals'[|seals|].number == 1;
    }
    assert HasFirst(seals', r.inst);
    hide HasFirst;
  }

  lemma NumberFirst(ss: seq<Session>, seals: seq<Seal>, r: Returning)
    requires FirstOk(ss, seals, r) && r.Chosen? && r.inst < |ss| && ss[r.inst].next + 1 < TWO_64
    ensures var s := Assign(ss[r.inst]);
            FirstOk(ss[r.inst := s], seals, Numbered(r.id, r.packet, r.inst, s.next))
  {
    hide HasFirst;
  }

  lemma ObserveFirst(ss: seq<Session>, seals: seq<Seal>, ret: Returning, i: nat, n: U64)
    requires FirstOk(ss, seals, ret) && i < |ss|
    ensures FirstOk(ss[i := Observe(ss[i], n)], seals, ret)
  {
    hide HasFirst;
  }

  lemma DatagramFirst(cfg: Config, m: Machine, wire: Bytes, src: Option<P.AddrPort>)
    requires FirstOk(m.sessions, m.seals, m.ret)
    ensures FirstOk(DoDatagram(cfg, m, wire, src).sessions, m.seals, m.ret)
  {
    hide FirstOk, Find, ParseHeader;
    if ParseHeader(wire).Ok? {
      FindFirst(cfg, m, ParseHeader(wire).value.id.session);
    }
  }

  lemma ChooseFirst(cfg: Config, m: Machine)
    requires FirstOk(m.sessions, m.seals, m.ret)
    ensures var m' := DoChoose(cfg, m); FirstOk(m'.sessions, m.seals, m'.ret)
  {
    hide HasFirst, Find;
    if m.ret.Looked? {
      FindFirst(cfg, m, m.ret.id);
    }
  }

  lemma JudgeFirst(m: Machine)
    requires FirstOk(m.sessions, m.seals, m.ret)
    ensures FirstOk(DoJudge(m).sessions, m.seals, m.ret)
  {
    hide FirstOk, Replay.Decide;
    if m.recv.Opened? && m.recv.auth < |m.auths| && m.auths[m.recv.auth].inst < |m.sessions| {
      ObserveFirst(m.sessions, m.seals, m.ret, m.auths[m.recv.auth].inst, m.auths[m.recv.auth].number);
    }
  }

  lemma NumberStepFirst(m: Machine)
    requires FirstOk(m.sessions, m.seals, m.ret)
    requires m.ret.Chosen? && Takes(m, Number, m.ret.inst) ==> m.sessions[m.ret.inst].next + 1 < TWO_64
    ensures var m' := DoNumber(m); FirstOk(m'.sessions, m.seals, m'.ret)
  {
    hide HasFirst;
    if m.ret.Chosen? && Takes(m, Number, m.ret.inst) {
      NumberFirst(m.sessions, m.seals, m.ret);
    }
  }

  lemma SealStepFirst(cfg: Config, m: Machine)
    requires FirstOk(m.sessions, m.seals, m.ret)
    ensures var m' := DoSeal(cfg, m); FirstOk(m.sessions, m'.seals, m'.ret)
  {
    hide HasFirst, PacketBox;
    if m.ret.Numbered? {
      SealFirst(m.sessions, m.seals, m.ret);
    }
  }

  lemma IdleFirst(m: Machine, packet: Bytes)
    requires FirstOk(m.sessions, m.seals, m.ret)
    ensures FirstOk(m.sessions, m.seals, DoPacket(m, packet).ret)
  {
    hide HasFirst, ParseIPv4;
  }

  lemma DeliverFirst(cfg: Config, m: Machine, accepts: P.AddrPort -> bool)
    requires FirstOk(m.sessions, m.seals, m.ret)
    ensures FirstOk(m.sessions, m.seals, DoDeliver(cfg, m, accepts).ret)
  {
    hide HasFirst, Copies, PacketWire, P.PruneState, P.FreshIn;
  }

  lemma StepFirst(cfg: Config, m: Machine, ev: Event)
    requires FirstOk(m.sessions, m.seals, m.ret)
    requires m.ret.Chosen? && Takes(m, ev, m.ret.inst) ==> m.sessions[m.ret.inst].next + 1 < TWO_64
    ensures var m' := Step(cfg, m, ev); FirstOk(m'.sessions, m'.seals, m'.ret)
  {
    hide DoDatagram, DoJudge, DoPacket, DoChoose, DoNumber, DoSeal, DoDeliver, FirstOk;
    match ev
    case Datagram(wire, src) => DatagramFirst(cfg, m, wire, src); DatagramFrame(cfg, m, wire, src);
    case Choose => ChooseFirst(cfg, m); ChooseFrame(cfg, m);
    case Judge => JudgeFirst(m); JudgeFrame(m);
    case Number => NumberStepFirst(m); NumberFrame(m);
    case SealIt => SealStepFirst(cfg, m); SealFrame(cfg, m);
    case Packet(packet) => IdleFirst(m, packet); PacketFrame(m, packet);
    case Deliver(accepts) => DeliverFirst(cfg, m, accepts); DeliverFrame(cfg, m, accepts);
    case _ =>
      hide Step;
      HandshakesLeaveSessions(cfg, m, ev);
  }

  lemma {:induction false} ExecFirst(cfg: Config, hosts: seq<Addr>, evs: seq<Event>)
    requires InBudget(cfg, hosts, evs)
    ensures var m := Exec(cfg, hosts, evs); FirstOk(m.sessions, m.seals, m.ret)
  {
    hide Step, HasFirst;
    if evs != [] {
      PrefixInBudget(cfg, hosts, evs, |evs| - 1);
      ExecFirst(cfg, hosts, evs[..|evs| - 1]);
      NumberLeft(cfg, hosts, evs);
      hide FirstOk;
      StepFirst(cfg, Exec(cfg, hosts, evs[..|evs| - 1]), evs[|evs| - 1]);
    }
  }

  // ---- Reuse, exactly --------------------------------------------------------------------------

  function BoxOf(cfg: Config, m: Machine, z: nat): Box
    requires z < |m.seals| && m.seals[z].inst < |m.sessions|
  {
    PacketBox(cfg.enc, m.sessions[m.seals[z].inst], m.seals[z].number, m.seals[z].packet)
  }

  /** Two replies are sealed under one key with one nonce. */
  ghost predicate Reuses(cfg: Config, m: Machine, y: nat, z: nat) {
    && y < z < |m.seals| && m.seals[y].inst < |m.sessions| && m.seals[z].inst < |m.sessions|
    && BoxOf(cfg, m, y).key == BoxOf(cfg, m, z).key && BoxOf(cfg, m, y).nonce == BoxOf(cfg, m, z).nonce
  }

  /** Two replies come from different sessions with the same key. */
  ghost predicate SharesKey(m: Machine, y: nat, z: nat) {
    && y < z < |m.seals| && m.seals[y].inst < |m.sessions| && m.seals[z].inst < |m.sessions|
    && m.seals[y].inst != m.seals[z].inst
    && m.sessions[m.seals[y].inst].key == m.sessions[m.seals[z].inst].key
  }

  lemma ReuseSharesKey(cfg: Config, m: Machine, y: nat, z: nat)
    requires SessionsOk(m.sessions) && SealsOk(m.sessions, m.seals) && Reuses(cfg, m, y, z)
    ensures SharesKey(m, y, z)
  {
    NonceInjective(ToClient, m.seals[y].number, ToClient, m.seals[z].number);
  }

  lemma SharedKeyReuses(cfg: Config, m: Machine, y: nat, z: nat) returns (y': nat, z': nat)
    requires SessionsOk(m.sessions) && SealsOk(m.sessions, m.seals) && FirstOk(m.sessions, m.seals, m.ret) && SharesKey(m, y, z)
    ensures Reuses(cfg, m, y', z')
  {
    assert HasFirst(m.seals, m.seals[y].inst) && HasFirst(m.seals, m.seals[z].inst);
    var a :| 0 <= a < |m.seals| && m.seals[a].inst == m.seals[y].inst && m.seals[a].number == 1;
    var b :| 0 <= b < |m.seals| && m.seals[b].inst == m.seals[z].inst && m.seals[b].number == 1;
    y', z' := if a < b then a else b, if a < b then b else a;
  }

  /** Over every run: a nonce is reused under a key exactly when two different sessions that have
      both replied hold the same key. */
  lemma NonceReuseExactly(cfg: Config, hosts: seq<Addr>, evs: seq<Event>)
    requires Pool(cfg, hosts) && InBudget(cfg, hosts, evs)
    ensures var m := Exec(cfg, hosts, evs);
            (exists y, z :: Reuses(cfg, m, y, z)) <==> (exists y, z :: SharesKey(m, y, z))
  {
    var m := Exec(cfg, hosts, evs);
    ExecInv(cfg, hosts, evs);
    ExecFirst(cfg, hosts, evs);
    hide FirstOk, SessionsOk, SealsOk, Reuses, SharesKey;
    if exists y, z :: Reuses(cfg, m, y, z) {
      var y, z :| Reuses(cfg, m, y, z);
      ReuseSharesKey(cfg, m, y, z);
    }
    if exists y, z :: SharesKey(m, y, z) {
      var y, z :| SharesKey(m, y, z);
      var y', z' := SharedKeyReuses(cfg, m, y, z);
    }
  }

  /** So however sessions are forgotten and ids come back, no nonce is ever used twice under a key that
      is registered once; with a fresh key per handshake that is every key. */
  lemma FreshKeysNeverReuse(cfg: Config, hosts: seq<Addr>, evs: seq<Event>, y: nat, z: nat)
    requires Pool(cfg, hosts) && InBudget(cfg, hosts, evs)
    requires var m := Exec(cfg, hosts, evs); y < z < |m.seals| && m.seals[y].inst < |m.sessions|
    requires Registrations(cfg, hosts, evs, BoxOf(cfg, Exec(cfg, hosts, evs), y).key) <= 1
    ensures !Reuses(cfg, Exec(cfg, hosts, evs), y, z)
  {
    var m := Exec(cfg, hosts, evs);
    ExecInv(cfg, hosts, evs);
    ExecKey(cfg, hosts, evs, BoxOf(cfg, m, y).key);
    if Reuses(cfg, m, y, z) {
      ReuseSharesKey(cfg, m, y, z);
    }
  }
}
