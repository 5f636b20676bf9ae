/** What passes through the gateway, traced from end to end: what the tunnel gets is what the client sent,
    and what the client opens is what the tunnel returned. */
module GatewayClients {
  import opened Basics
  import opened DataWire
  import opened SessionSpec
  import opened GatewaySpec
  import opened Allocators
  import opened GatewayRuns
  import Safety = GatewaySafety
  import Nonces = GatewayNonces
  import Pair = SessionPair
  import P = PathSets
  import Replay = ReplaySpec

  lemma RunReaches(cfg: Config, hosts: seq<Addr>, evs: seq<Event>)
    requires Safety.Pool(cfg, hosts) && Safety.InBudget(cfg, hosts, evs)
    ensures Safety.Reachable(cfg, Exec(cfg, hosts, evs))
  {
  }

  // ---- At most once, across forgetting ---------------------------------------------------------

  /** However often ids are forgotten and come back: no box enters the tunnel twice under a key that is
      registered once, nor do two boxes with one number. */
  lemma FreshKeysTunnelOnce(cfg: Config, hosts: seq<Addr>, evs: seq<Event>, key: Bytes, t: nat, u: nat)
    requires Safety.Pool(cfg, hosts) && Safety.InBudget(cfg, hosts, evs) && Nonces.Registrations(cfg, hosts, evs, key) <= 1
    requires t < u < |Exec(cfg, hosts, evs).tun|
    ensures var m := Exec(cfg, hosts, evs);
            && m.tun[t].first < m.tun[u].first < |m.firsts|
            && m.firsts[m.tun[t].first] < |m.auths| && m.firsts[m.tun[u].first] < |m.auths|
            && var a, b := Behind(m, t), Behind(m, u);
               a.box.key == key == b.box.key ==> a.number != b.number && a.box.nonce != b.box.nonce
  {
    hide Exec, Safety.Reachable, Safety.InBudget, Nonces.Registrations, ParseIPv4, Nonce;
    var m := Exec(cfg, hosts, evs);
    RunReaches(cfg, hosts, evs);
    Safety.TunnelledOnce(cfg, m, t, u);
    Safety.TunnelledIsFirstCopy(cfg, m, t);
    Safety.TunnelledIsFirstCopy(cfg, m, u);
    Nonces.ExecKey(cfg, hosts, evs, key);
    NonceInjective(ToGateway, Behind(m, t).number, ToGateway, Behind(m, u).number);
  }

  // ---- Who sealed what -------------------------------------------------------------------------

  ghost predicate Inbound(box: Box) {
    exists n: U64 :: box.nonce == Nonce(ToGateway, n)
  }

  /** Someone other than the gateway sealed this during the run. */
  ghost predicate SealedOutside(evs: seq<Event>, box: Box, plain: Bytes) {
    exists i :: 0 <= i < |evs| && evs[i] == Outside(box, plain)
  }

  /** Reply `y` of the gateway is this. */
  ghost predicate IsReply(enc: Cipher, sessions: seq<Session>, seals: seq<Seal>, y: nat, box: Box, plain: Bytes) {
    && y < |seals| && seals[y].inst < |sessions| && seals[y].packet == plain
    && box == PacketBox(enc, sessions[seals[y].inst], seals[y].number, plain)
  }

  /** The gateway sealed this. */
  ghost predicate SealedHere(enc: Cipher, sessions: seq<Session>, seals: seq<Seal>, box: Box, plain: Bytes) {
    exists y :: IsReply(enc, sessions, seals, y, box, plain)
  }

  /** Whatever was sealed was sealed outside or is a reply. */
  ghost predicate VaultFrom(enc: Cipher, vault: Vault, evs: seq<Event>, sessions: seq<Session>, seals: seq<Seal>) {
    forall box | box in vault :: SealedOutside(evs, box, vault[box]) || SealedHere(enc, sessions, seals, box, vault[box])
  }

  /** The box of every reply is sealed, as that reply or as a later one with the same box. */
  ghost predicate RepliesKept(enc: Cipher, vault: Vault, sessions: seq<Session>, seals: seq<Seal>) {
    forall z | 0 <= z < |seals| :: ReplyKept(enc, vault, sessions, seals, z)
  }

  ghost predicate ReplyKept(enc: Cipher, vault: Vault, sessions: seq<Session>, seals: seq<Seal>, z: nat)
    requires z < |seals|
  {
    && seals[z].inst < |sessions|
    && var box := PacketBox(enc, sessions[seals[z].inst], seals[z].number, seals[z].packet);
       box in vault && exists y :: z <= y && IsReply(enc, sessions, seals, y, box, vault[box])
  }

  ghost predicate Sealings(cfg: Config, evs: seq<Event>, m: Machine) {
    VaultFrom(cfg.enc, m.vault, evs, m.sessions, m.seals) && RepliesKept(cfg.enc, m.vault, m.sessions, m.seals)
  }

  lemma StillOutside(evs: seq<Event>, ev: Event, box: Box, plain: Bytes)
    requires SealedOutside(evs, box, plain)
    ensures SealedOutside(evs + [ev], box, plain)
  {
    var i :| 0 <= i < |evs| && evs[i] == Outside(box, plain);
    assert (evs + [ev])[i] == Outside(box, plain);
  }

  /** Sessions keep what their boxes are made of. */
  ghost predicate SameEnds(ss: seq<Session>, ss': seq<Session>) {
    && |ss| <= |ss'|
    && forall i | 0 <= i < |ss| :: ss'[i].id == ss[i].id && ss'[i].key == ss[i].key && ss'[i].role == ss[i].role
  }

  lemma SameBox(enc: Cipher, s: Session, s': Session, n: U64, plain: Bytes)
    requires s.id == s'.id && s.key == s'.key && s.role == s'.role
    ensures PacketBox(enc, s, n, plain) == PacketBox(enc, s', n, plain)
  {
  }

  lemma StillReply(enc: Cipher, ss: seq<Session>, ss': seq<Session>, seals: seq<Seal>, seals': seq<Seal>, y: nat, box: Box, plain: Bytes)
    requires IsReply(enc, ss, seals, y, box, plain) && SameEnds(ss, ss') && seals <= seals'
    ensures IsReply(enc, ss', seals', y, box, plain)
  {
    hide PacketBox;
    SameBox(enc, ss[seals[y].inst], ss'[seals[y].inst], seals[y].number, plain);
  }

  lemma StillKept(enc: Cipher, vault: Vault, ss: seq<Session>, ss': seq<Session>, seals: seq<Seal>, z: nat)
    requires z < |seals| && ReplyKept(enc, vault, ss, seals, z) && SameEnds(ss, ss')
    ensures ReplyKept(enc, vault, ss', seals, z)
  {
    hide PacketBox, IsReply;
    var e := seals[z];
    SameBox(enc, ss[e.inst], ss'[e.inst], e.number, e.packet);
    var box := PacketBox(enc, ss[e.inst], e.number, e.packet);
    var y: nat :| z <= y && IsReply(enc, ss, seals, y, box, vault[box]);
    StillReply(enc, ss, ss', seals, seals, y, box, vault[box]);
  }

  /** Events that seal nothing. */
  lemma CarrySealings(cfg: Config, front: seq<Event>, ev: Event, m: Machine, m': Machine)
    requires Sealings(cfg, front, m) && m'.vault == m.vault && m'.seals == m.seals && SameEnds(m.sessions, m'.sessions)
    ensures Sealings(cfg, front + [ev], m')
  {
    hide SealedOutside, IsReply, ReplyKept, SameEnds;
    forall box | box in m.vault
      ensures SealedOutside(front + [ev], box, m.vault[box]) || SealedHere(cfg.enc, m'.sessions, m.seals, box, m.vault[box])
    {
      if SealedOutside(front, box, m.vault[box]) {
        StillOutside(front, ev, box, m.vault[box]);
      } else {
        var y: nat :| IsReply(cfg.enc, m.sessions, m.seals, y, box, m.vault[box]);
        StillReply(cfg.enc, m.sessions, m'.sessions, m.seals, m.seals, y, box, m.vault[box]);
      }
    }
    forall z | 0 <= z < |m.seals| ensures ReplyKept(cfg.enc, m.vault, m'.sessions, m.seals, z) {
      StillKept(cfg.enc, m.vault, m.sessions, m'.sessions, m.seals, z);
    }
  }

  /** One more reply. */
  lemma SealVault(enc: Cipher, vault: Vault, evs: seq<Event>, ss: seq<Session>, seals: seq<Seal>, e: Seal)
    requires VaultFrom(enc, vault, evs, ss, seals) && e.inst < |ss|
    ensures VaultFrom(enc, vault[PacketBox(enc, ss[e.inst], e.number, e.packet) := e.packet], evs, ss, seals + [e])
  {
    hide SealedOutside, PacketBox;
    var own, seals' := PacketBox(enc, ss[e.inst], e.number, e.packet), seals + [e];
    var vault' := vault[own := e.packet];
    assert IsReply(enc, ss, seals', |seals|, own, e.packet);
    hide IsReply;
    forall box | box in vault'
      ensures SealedOutside(evs, box, vault'[box]) || SealedHere(enc, ss, seals', box, vault'[box])
    {
      if box != own && !SealedOutside(evs, box, vault[box]) {
        var y: nat :| IsReply(enc, ss, seals, y, box, vault[box]);
        StillReply(enc, ss, ss, seals, seals', y, box, vault[box]);
      }
    }
  }

  lemma SealKept(enc: Cipher, vault: Vault, ss: seq<Session>, seals: seq<Seal>, e: Seal, z: nat)
    requires e.inst < |ss| && z <= |seals| && (z < |seals| ==> ReplyKept(enc, vault, ss, seals, z))
    ensures ReplyKept(enc, vault[PacketBox(enc, ss[e.inst], e.number, e.packet) := e.packet], ss, seals + [e], z)
  {
    hide PacketBox;
    var own, seals' := PacketBox(enc, ss[e.inst], e.number, e.packet), seals + [e];
    assert IsReply(enc, ss, seals', |seals|, own, e.packet);
    hide IsReply;
    var f := seals'[z];
    var box := PacketBox(enc, ss[f.inst], f.number, f.packet);
    if box != own {
      var y: nat :| z <= y && IsReply(enc, ss, seals, y, box, vault[box]);
      StillReply(enc, ss, ss, seals, seals', y, box, vault[box]);
    }
  }

  lemma SealSealings(cfg: Config, evs: seq<Event>, m: Machine)
    requires Sealings(cfg, evs, m)
    ensures Sealings(cfg, evs, DoSeal(cfg, m))
  {
    hide VaultFrom, ReplyKept, PacketBox;
    if m.ret.Numbered? && m.ret.inst < |m.sessions| {
      var r := m.ret;
      var e := Seal(r.inst, r.number, r.packet);
      SealVault(cfg.enc, m.vault, evs, m.sessions, m.seals, e);
      var vault, seals := m.vault[PacketBox(cfg.enc, m.sessions[e.inst], e.number, e.packet) := e.packet], m.seals + [e];
      forall z | 0 <= z < |seals| ensures ReplyKept(cfg.enc, vault, m.sessions, seals, z) {
        SealKept(cfg.enc, m.vault, m.sessions, m.seals, e, z);
      }
    }
  }

  lemma OutsideSealings(cfg: Config, front: seq<Event>, m: Machine, box: Box, plain: Bytes)
    requires Sealings(cfg, front + [Outside(box, plain)], m) && box !in m.vault
    ensures Sealings(cfg, front + [Outside(box, plain)], m.(vault := m.vault[box := plain]))
  {
    var evs := front + [Outside(box, plain)];
    assert evs[|front|] == Outside(box, plain);
    assert SealedOutside(evs, box, plain);
    hide SealedOutside, SealedHere, IsReply, PacketBox;
    var vault := m.vault[box := plain];
    forall z | 0 <= z < |m.seals| ensures ReplyKept(cfg.enc, vault, m.sessions, m.seals, z) {
      assert ReplyKept(cfg.enc, m.vault, m.sessions, m.seals, z);
    }
  }

  /** Nothing else touches the vault. */
  lemma VaultFrame(cfg: Config, m: Machine, ev: Event)
    requires !ev.SealIt? && !ev.Outside?
    ensures Step(cfg, m, ev).vault == m.vault
  {
    hide DoHello, DoLease, DoUnwind, DoDatagram, DoOpen, DoJudge, DoNote, DoLetOut, DoPacket, DoChoose, DoNumber, DoDeliver;
    match ev
    case Hello(id, key) => HelloFrame(m, id, key);
    case Lease(fits) => LeaseFrame(m, fits);
    case Unwind => UnwindFrame(m);
    case Datagram(wire, src) => DatagramFrame(cfg, m, wire, src);
    case Open => OpenFrame(m);
    case Judge => JudgeFrame(m);
    case Note => NoteFrame(m);
    case LetOut(ok) => LetOutFrame(m, ok);
    case Packet(packet) => PacketFrame(m, packet);
    case Choose => ChooseFrame(cfg, m);
    case Number => NumberFrame(m);
    case Deliver(accepts) => DeliverFrame(cfg, m, accepts);
    case Tick(_) =>
    case Forget(_) =>
  }

  /** No event changes what the boxes of a session are made of. */
  lemma EndsStay(cfg: Config, m: Machine, ev: Event)
    ensures SameEnds(m.sessions, Step(cfg, m, ev).sessions)
  {
    hide DoDatagram, DoJudge, DoPacket, DoChoose, DoNumber, DoSeal, DoDeliver;
    match ev
    case Datagram(wire, src) => DatagramEnds(cfg, m, wire, src);
    case Choose => ChooseEnds(cfg, m);
    case Judge => JudgeEnds(m);
    case Number => NumberEnds(m);
    case SealIt => SealFrame(cfg, m);
    case Packet(packet) => PacketFrame(m, packet);
    case Deliver(accepts) => DeliverFrame(cfg, m, accepts);
    case _ =>
      hide Step;
      HandshakesLeaveSessions(cfg, m, ev);
  }

  lemma FindEnds(cfg: Config, m: Machine, id: SessionId)
    ensures SameEnds(m.sessions, Find(cfg, m, id).0.sessions)
  {
    hide New;
  }

  lemma DatagramEnds(cfg: Config, m: Machine, wire: Bytes, src: Option<P.AddrPort>)
    ensures SameEnds(m.sessions, DoDatagram(cfg, m, wire, src).sessions)
  {
    hide Find, ParseHeader;
    if ParseHeader(wire).Ok? {
      FindEnds(cfg, m, ParseHeader(wire).value.id.session);
    }
  }

  lemma ChooseEnds(cfg: Config, m: Machine)
    ensures SameEnds(m.sessions, DoChoose(cfg, m).sessions)
  {
    hide Find;
    if m.ret.Looked? {
      FindEnds(cfg, m, m.ret.id);
    }
  }

  lemma JudgeEnds(m: Machine)
    ensures SameEnds(m.sessions, DoJudge(m).sessions)
  {
    hide Replay.Decide;
  }

  lemma NumberEnds(m: Machine)
    ensures SameEnds(m.sessions, DoNumber(m).sessions)
  {
    AssignEnds(m.sessions);
    hide Assign;
  }

  lemma AssignEnds(ss: seq<Session>)
    ensures forall i | 0 <= i < |ss| :: SameEnds(ss, ss[i := Assign(ss[i])])
  {
  }

  lemma SealsStay(cfg: Config, m: Machine, ev: Event)
    requires !ev.SealIt?
    ensures Step(cfg, m, ev).seals == m.seals
  {
    hide DoDatagram, DoJudge, DoPacket, DoChoose, DoNumber, DoDeliver;
    match ev
    case Datagram(wire, src) => DatagramFrame(cfg, m, wire, src);
    case Choose => ChooseFrame(cfg, m);
    case Judge => JudgeFrame(m);
    case Number => NumberFrame(m);
    case Packet(packet) => PacketFrame(m, packet);
    case Deliver(accepts) => DeliverFrame(cfg, m, accepts);
    case _ =>
      hide Step;
      HandshakesLeaveSessions(cfg, m, ev);
  }

  lemma StepSealings(cfg: Config, front: seq<Event>, ev: Event, m: Machine)
    requires Sealings(cfg, front, m)
    ensures Sealings(cfg, front + [ev], Step(cfg, m, ev))
  {
    hide Sealings, DoSeal, SameEnds;
    match ev
    case SealIt =>
      SameEndsAgain(m.sessions);
      CarrySealings(cfg, front, ev, m, m);
      SealSealings(cfg, front + [ev], m);
    case Outside(box, plain) =>
      SameEndsAgain(m.sessions);
      CarrySealings(cfg, front, ev, m, m);
      if box !in m.vault {
        OutsideSealings(cfg, front, m, box, plain);
      }
    case _ =>
      hide Step;
      VaultFrame(cfg, m, ev);
      SealsStay(cfg, m, ev);
      EndsStay(cfg, m, ev);
      CarrySealings(cfg, front, ev, m, Step(cfg, m, ev));
  }

  lemma SameEndsAgain(ss: seq<Session>)
    ensures SameEnds(ss, ss)
  {
  }

  /** Over every run: whatever is sealed was sealed outside or is a reply, and every reply stays sealed. */
  lemma {:induction false} ExecSealings(cfg: Config, hosts: seq<Addr>, evs: seq<Event>)
    ensures Sealings(cfg, evs, Exec(cfg, hosts, evs))
  {
    hide Step;
    if evs != [] {
      var front, ev := evs[..|evs| - 1], evs[|evs| - 1];
      assert evs == front + [ev];
      hide Sealings;
      ExecSealings(cfg, hosts, front);
      StepSealings(cfg, front, ev, Exec(cfg, hosts, front));
    }
  }

  lemma ReplyIsOutbound(enc: Cipher, s: Session, n: U64, payload: Bytes)
    requires s.role == Responder
    ensures !Inbound(PacketBox(enc, s, n, payload))
  {
    var box := PacketBox(enc, s, n, payload);
    if Inbound(box) {
      var k: U64 :| box.nonce == Nonce(ToGateway, k);
      NonceInjective(ToClient, n, ToGateway, k);
    }
  }

  /** So whatever is sealed towards the gateway was sealed outside. */
  lemma InboundIsOutside(cfg: Config, hosts: seq<Addr>, evs: seq<Event>, box: Box)
    requires Safety.Pool(cfg, hosts) && Safety.InBudget(cfg, hosts, evs)
    requires box in Exec(cfg, hosts, evs).vault && Inbound(box)
    ensures SealedOutside(evs, box, Exec(cfg, hosts, evs).vault[box])
  {
    hide Exec, SealedOutside, Inbound, PacketBox;
    var m := Exec(cfg, hosts, evs);
    ExecSealings(cfg, hosts, evs);
    Safety.ExecInv(cfg, hosts, evs);
    if !SealedOutside(evs, box, m.vault[box]) {
      var y: nat :| IsReply(cfg.enc, m.sessions, m.seals, y, box, m.vault[box]);
      var e := m.seals[y];
      ReplyIsOutbound(cfg.enc, m.sessions[e.inst], e.number, e.packet);
    }
  }

  // ---- From the client to the tunnel -----------------------------------------------------------

  /** Under the key of `sh`, everything sealed towards the gateway was sealed in `sys`. */
  ghost predicate OnlyClientSeals(evs: seq<Event>, sh: Pair.Shared, sys: Pair.System) {
    forall i | 0 <= i < |evs| && evs[i].Outside? && evs[i].box.key == sh.key && Inbound(evs[i].box) ::
      evs[i].box in sys.vault && sys.vault[evs[i].box] == evs[i].plain
  }

  /** Then every arrival at a session with that key is, byte for byte, the packet that the client sealed
      under that number. */
  lemma ArrivedIsSent(cfg: Config, hosts: seq<Addr>, evs: seq<Event>, sh: Pair.Shared, sys: Pair.System, k: nat)
    requires Safety.Pool(cfg, hosts) && Safety.InBudget(cfg, hosts, evs) && Pair.Reachable(sh, sys)
    requires OnlyClientSeals(evs, sh, sys) && k < |Exec(cfg, hosts, evs).auths| && Exec(cfg, hosts, evs).auths[k].box.key == sh.key
    ensures var a := Exec(cfg, hosts, evs).auths[k];
            && Pair.IsSealed(sys.ini, a.number) && a.payload == sys.ini.sent[a.number - 1]
            && a.box == PacketBox(sh.enc, sys.ini.session, a.number, a.payload)
  {
    hide Exec, Safety.InBudget, Safety.Inv, Pair.Reachable, Pair.IsSealed, OnlyClientSeals, Nonce, PacketBox, SealedOutside;
    var m := Exec(cfg, hosts, evs);
    var a := m.auths[k];
    Safety.ExecInv(cfg, hosts, evs);
    Safety.ArrivalIsBoxed(cfg, m, k);
    InboundIsOutside(cfg, hosts, evs, a.box) by {
      assert Inbound(a.box);
    }
    ClientSealed(evs, sh, sys, a.box, a.payload);
    InboundIsSent(sh, sys, a.number, a.box);
  }

  lemma InboundIsSent(sh: Pair.Shared, sys: Pair.System, n: U64, box: Box)
    requires Pair.Reachable(sh, sys) && box in sys.vault && box.key == sh.key && box.nonce == Nonce(ToGateway, n)
    ensures Pair.IsSealed(sys.ini, n) && sys.vault[box] == sys.ini.sent[n - 1]
    ensures box == PacketBox(sh.enc, sys.ini.session, n, sys.vault[box])
  {
    hide Nonce, PacketBox;
    Pair.ReachableInv(sh, sys);
    Pair.BoxIsPeers(sh, sys, Responder, n, box);
  }

  lemma ClientSealed(evs: seq<Event>, sh: Pair.Shared, sys: Pair.System, box: Box, plain: Bytes)
    requires OnlyClientSeals(evs, sh, sys) && SealedOutside(evs, box, plain) && box.key == sh.key && Inbound(box)
    ensures box in sys.vault && sys.vault[box] == plain
  {
    hide Inbound;
  }

  /** Over every run of the gateway and every run of the client: if only the client seals towards the
      gateway under its key, then each packet that the tunnel gets from a session with that key is, byte
      for byte, the packet the client sealed under that number. */
  lemma TunnelledIsSent(cfg: Config, hosts: seq<Addr>, evs: seq<Event>, sh: Pair.Shared, sys: Pair.System, t: nat)
    requires Safety.Pool(cfg, hosts) && Safety.InBudget(cfg, hosts, evs) && Pair.Reachable(sh, sys)
    requires OnlyClientSeals(evs, sh, sys) && t < |Exec(cfg, hosts, evs).tun|
    ensures var m := Exec(cfg, hosts, evs);
            && m.tun[t].first < |m.firsts| && m.firsts[m.tun[t].first] < |m.auths|
            && var a := Behind(m, t);
               a.inst < |m.sessions|
               && (m.sessions[a.inst].key == sh.key ==>
                   && Pair.IsSealed(sys.ini, a.number) && m.tun[t].packet == sys.ini.sent[a.number - 1]
                   && a.box == PacketBox(sh.enc, sys.ini.session, a.number, m.tun[t].packet))
  {
    hide Exec, Safety.Reachable, Safety.InBudget, Pair.Reachable, OnlyClientSeals, ParseIPv4, Nonce, PacketBox, Pair.IsSealed;
    var m := Exec(cfg, hosts, evs);
    RunReaches(cfg, hosts, evs);
    Safety.TunnelledIsFirstCopy(cfg, m, t);
    if Behind(m, t).box.key == sh.key {
      ArrivedIsSent(cfg, hosts, evs, sh, sys, m.firsts[m.tun[t].first]);
    }
  }

  /** And each at most once: if that key is registered once, two packets that the tunnel gets from sessions
      with it are two different entries of what the client sent. */
  lemma SentTunnelledOnce(cfg: Config, hosts: seq<Addr>, evs: seq<Event>, sh: Pair.Shared, sys: Pair.System, t: nat, u: nat)
    requires Safety.Pool(cfg, hosts) && Safety.InBudget(cfg, hosts, evs) && Pair.Reachable(sh, sys)
    requires OnlyClientSeals(evs, sh, sys) && Nonces.Registrations(cfg, hosts, evs, sh.key) <= 1
    requires t < u < |Exec(cfg, hosts, evs).tun|
    ensures var m := Exec(cfg, hosts, evs);
            && m.tun[t].first < |m.firsts| && m.firsts[m.tun[t].first] < |m.auths|
            && m.tun[u].first < |m.firsts| && m.firsts[m.tun[u].first] < |m.auths|
            && var a, b := Behind(m, t), Behind(m, u);
               a.inst < |m.sessions| && b.inst < |m.sessions|
               && (m.sessions[a.inst].key == sh.key == m.sessions[b.inst].key ==>
                   && Pair.IsSealed(sys.ini, a.number) && m.tun[t].packet == sys.ini.sent[a.number - 1]
                   && Pair.IsSealed(sys.ini, b.number) && m.tun[u].packet == sys.ini.sent[b.number - 1]
                   && a.number != b.number)
  {
    hide Exec, Safety.Reachable, Safety.InBudget, Pair.Reachable, Pair.IsSealed, OnlyClientSeals, Nonces.Registrations, ParseIPv4, PacketBox;
    var m := Exec(cfg, hosts, evs);
    RunReaches(cfg, hosts, evs);
    TunnelledIsSent(cfg, hosts, evs, sh, sys, t);
    TunnelledIsSent(cfg, hosts, evs, sh, sys, u);
    Safety.TunnelledIsFirstCopy(cfg, m, t);
    Safety.TunnelledIsFirstCopy(cfg, m, u);
    FreshKeysTunnelOnce(cfg, hosts, evs, sh.key, t, u);
  }

  // ---- From the tunnel to the client -----------------------------------------------------------

  /** A reply under a key that is registered once is the only one in its box. */
  lemma ReplyStays(cfg: Config, hosts: seq<Addr>, evs: seq<Event>, z: nat)
    requires Safety.Pool(cfg, hosts) && Safety.InBudget(cfg, hosts, evs) && z < |Exec(cfg, hosts, evs).seals|
    ensures var m := Exec(cfg, hosts, evs);
            var e := m.seals[z];
            && e.inst < |m.sessions| && m.sessions[e.inst].role == Responder && !IsZero(m.sessions[e.inst].id) && e.number > 0
            && (Nonces.Registrations(cfg, hosts, evs, m.sessions[e.inst].key) <= 1 ==>
                var box := PacketBox(cfg.enc, m.sessions[e.inst], e.number, e.packet); box in m.vault && m.vault[box] == e.packet)
  {
    hide Exec, Nonce, PacketBox, Nonces.Registrations, Safety.InBudget, Safety.Inv, IsReply;
    var m := Exec(cfg, hosts, evs);
    Safety.ExecInv(cfg, hosts, evs);
    ReplyIsProper(cfg, m, z);
    ExecSealings(cfg, hosts, evs);
    assert ReplyKept(cfg.enc, m.vault, m.sessions, m.seals, z);
    var e := m.seals[z];
    var box := PacketBox(cfg.enc, m.sessions[e.inst], e.number, e.packet);
    var y: nat :| z <= y && IsReply(cfg.enc, m.sessions, m.seals, y, box, m.vault[box]);
    OneBox(cfg, m, z, y, m.vault[box]);
    if Nonces.Registrations(cfg, hosts, evs, m.sessions[e.inst].key) <= 1 && z < y {
      Nonces.FreshKeysNeverReuse(cfg, hosts, evs, z, y);
    }
  }

  lemma ReplyIsProper(cfg: Config, m: Machine, z: nat)
    requires Safety.Inv(cfg, m) && z < |m.seals|
    ensures var e := m.seals[z];
            e.inst < |m.sessions| && m.sessions[e.inst].role == Responder && !IsZero(m.sessions[e.inst].id) && e.number > 0
  {
  }

  /** Two replies in one box share its key and nonce. */
  lemma OneBox(cfg: Config, m: Machine, z: nat, y: nat, plain: Bytes)
    requires z <= y && z < |m.seals| && m.seals[z].inst < |m.sessions|
    requires var e := m.seals[z];
             IsReply(cfg.enc, m.sessions, m.seals, y, PacketBox(cfg.enc, m.sessions[e.inst], e.number, e.packet), plain)
    ensures y < |m.seals| && plain == m.seals[y].packet && (z < y ==> Nonces.Reuses(cfg, m, z, y))
    ensures Nonces.BoxOf(cfg, m, z).key == m.sessions[m.seals[z].inst].key
  {
  }

  /** Every return frame, wherever it was sent, opens at a client with its session's key to exactly the
      packet that the tunnel returned, if that key is registered once. */
  lemma ReturnedIsOpened(cfg: Config, hosts: seq<Addr>, evs: seq<Event>, z: nat, client: Session)
    requires Safety.Pool(cfg, hosts) && Safety.InBudget(cfg, hosts, evs) && z < |Exec(cfg, hosts, evs).sends|
    ensures var m := Exec(cfg, hosts, evs);
            var s := m.sends[z];
            && s.inst < |m.sessions|
            && (client.role == Initiator && client.key == m.sessions[s.inst].key
                && Nonces.Registrations(cfg, hosts, evs, client.key) <= 1 ==>
                Authenticate(m.vault, client, s.datagram) == Ok(Plain(s.number, s.packet)))
  {
    hide Exec, Safety.Reachable, Safety.InBudget, Nonces.Registrations, Authenticate, PacketWire, PacketBox, ParseIPv4;
    var m := Exec(cfg, hosts, evs);
    RunReaches(cfg, hosts, evs);
    var s := m.sends[z];
    Safety.ReturnedToLessee(cfg, m, z, s.id);
    var y: nat :| y < |m.seals| && m.seals[y] == Seal(s.inst, s.number, s.packet);
    ReplyStays(cfg, hosts, evs, y);
    if client.role == Initiator && client.key == m.sessions[s.inst].key && Nonces.Registrations(cfg, hosts, evs, client.key) <= 1 {
      WireAuthenticates(cfg.enc, m.vault, m.sessions[s.inst], client, s.number, s.packet);
    }
  }

  /** Under `key` nobody but the gateway seals towards clients. */
  ghost predicate OnlyGatewayReplies(evs: seq<Event>, key: Bytes) {
    forall i | 0 <= i < |evs| && evs[i].Outside? && evs[i].box.key == key :: Inbound(evs[i].box)
  }

  /** Conversely, if only the gateway seals towards clients under its key, whatever a client opens is the
      datagram of a reply that the gateway sealed, under that number and with that packet. */
  lemma OpenedIsReply(cfg: Config, hosts: seq<Addr>, evs: seq<Event>, client: Session, wire: Bytes, p: Plain) returns (y: nat)
    requires Safety.Pool(cfg, hosts) && Safety.InBudget(cfg, hosts, evs)
    requires client.role == Initiator && OnlyGatewayReplies(evs, client.key)
    requires Authenticate(Exec(cfg, hosts, evs).vault, client, wire) == Ok(p)
    ensures var m := Exec(cfg, hosts, evs);
            && y < |m.seals| && m.seals[y].inst < |m.sessions| && m.sessions[m.seals[y].inst].key == client.key
            && m.seals[y].number == p.number && m.seals[y].packet == p.payload
            && wire == PacketWire(cfg.enc, m.sessions[m.seals[y].inst], p.number, p.payload)
  {
    hide Exec, Authenticate, Nonce, Safety.InBudget, Safety.Inv, PacketBox, PacketWire, IsReply, SealedOutside, RepliesKept;
    var m := Exec(cfg, hosts, evs);
    AuthenticatedIsBoxed(m.vault, client, wire, p);
    var box := Box(client.key, Nonce(ToClient, p.number), wire[..DATA_HEADER_SIZE], wire[DATA_HEADER_SIZE..]);
    ExecSealings(cfg, hosts, evs);
    Safety.ExecInv(cfg, hosts, evs);
    OutboundIsHere(evs, client.key, p.number, box, p.payload);
    y :| IsReply(cfg.enc, m.sessions, m.seals, y, box, p.payload);
    ReplyIsWire(cfg, m, y, box, p, wire);
  }

  lemma ReplyIsWire(cfg: Config, m: Machine, y: nat, box: Box, p: Plain, wire: Bytes)
    requires Safety.Inv(cfg, m) && IsReply(cfg.enc, m.sessions, m.seals, y, box, p.payload)
    requires box.nonce == Nonce(ToClient, p.number) && wire == box.aad + box.ct
    ensures y < |m.seals| && m.seals[y].inst < |m.sessions| && m.sessions[m.seals[y].inst].key == box.key
    ensures m.seals[y].number == p.number && m.seals[y].packet == p.payload
    ensures wire == PacketWire(cfg.enc, m.sessions[m.seals[y].inst], p.number, p.payload)
  {
    hide Nonce;
    ReplyIsProper(cfg, m, y);
    NonceInjective(ToClient, m.seals[y].number, ToClient, p.number);
  }

  lemma OutboundIsHere(evs: seq<Event>, key: Bytes, n: U64, box: Box, plain: Bytes)
    requires OnlyGatewayReplies(evs, key) && box.key == key && box.nonce == Nonce(ToClient, n)
    ensures !SealedOutside(evs, box, plain)
  {
    if SealedOutside(evs, box, plain) {
      var i :| 0 <= i < |evs| && evs[i] == Outside(box, plain);
      var k: U64 :| box.nonce == Nonce(ToGateway, k);
      NonceInjective(ToClient, n, ToGateway, k);
    }
  }
}
