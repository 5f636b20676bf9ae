/** Two endpoints sharing a key, driven by any number of threads over a network that duplicates,
    drops, reorders and injects. Threads interleave at the granularity of the locks: taking a number,
    sealing, authenticating and asking the replay window are separate steps. */
module SessionPair {
  import opened Basics
  import opened DataWire
  import opened SessionSpec
  import Modular
  import Replay = ReplaySpec

  datatype Report = Report(number: U64, payload: Bytes, decision: Replay.Decision)

  /** `pending`: numbers taken but not sealed yet. `waiting`: packets authenticated by a receiver
      thread that has not reached the window yet. `sent` and `reports` record the whole run. */
  datatype Endpoint = Endpoint(
    session: Session, sent: seq<Bytes>, pending: map<U64, Bytes>, waiting: seq<Plain>, reports: seq<Report>)

  datatype Sealing = Sealing(role: Role, number: U64, box: Box)

  datatype System = System(vault: Vault, ini: Endpoint, res: Endpoint, sealings: seq<Sealing>)

  datatype Event =
    | Take(role: Role, payload: Bytes)
    | SealOne(role: Role, number: U64)
    | Receive(role: Role, wire: Bytes)
    | Judge(role: Role, index: nat)
    | Foreign(box: Box, plain: Bytes)

  /** What the two endpoints have in common. */
  datatype Shared = Shared(enc: Cipher, id: SessionId, key: Bytes, width: Role -> nat)

  function End(sys: System, role: Role): Endpoint {
    if role == Initiator then sys.ini else sys.res
  }

  function With(sys: System, role: Role, e: Endpoint): System {
    if role == Initiator then sys.(ini := e) else sys.(res := e)
  }

  function Start(sh: Shared): System {
    var e := (role: Role) =>
      Endpoint(Session(sh.id, role, sh.key, 0, Replay.Fresh(sh.width(role))), [], map[], [], []);
    System(map[], e(Initiator), e(Responder), [])
  }

  // ---- Steps -----------------------------------------------------------------------------------

  function TakeStep(e: Endpoint, payload: Bytes): Endpoint {
    if |payload| > MAX_PAYLOAD then e
    else
      var s := Assign(e.session);
      e.(session := s, sent := e.sent + [payload], pending := e.pending[s.next := payload])
  }

  function ReceiveStep(e: Endpoint, r: Result<Plain, SessionError>): Endpoint {
    match r
    case Err(_) => e
    case Ok(p) => e.(waiting := e.waiting + [p])
  }

  function JudgeStep(e: Endpoint, i: nat): Endpoint {
    if i >= |e.waiting| then e
    else
      var p := e.waiting[i];
      e.(session := Observe(e.session, p.number),
         waiting := e.waiting[..i] + e.waiting[i + 1..],
         reports := e.reports + [Report(p.number, p.payload, Replay.Decide(e.session.window, p.number))])
  }

  function SealStep(sh: Shared, sys: System, role: Role, n: U64): System {
    var e := End(sys, role);
    if n !in e.pending then sys
    else
      var box := PacketBox(sh.enc, e.session, n, e.pending[n]);
      With(sys, role, e.(pending := e.pending - {n}))
        .(vault := sys.vault[box := e.pending[n]], sealings := sys.sealings + [Sealing(role, n, box)])
  }

  /** One atomic step. A step whose guard fails does nothing. Whoever else seals does so under
      another key. */
  function Step(sh: Shared, sys: System, ev: Event): System {
    match ev
    case Take(role, payload) => With(sys, role, TakeStep(End(sys, role), payload))
    case SealOne(role, n) => SealStep(sh, sys, role, n)
    case Receive(role, wire) =>
      With(sys, role, ReceiveStep(End(sys, role), Authenticate(sys.vault, End(sys, role).session, wire)))
    case Judge(role, i) => With(sys, role, JudgeStep(End(sys, role), i))
    case Foreign(box, plain) => if box.key == sh.key then sys else sys.(vault := sys.vault[box := plain])
  }

  function Exec(sh: Shared, evs: seq<Event>): System {
    if evs == [] then Start(sh)
    else Step(sh, Exec(sh, evs[..|evs| - 1]), evs[|evs| - 1])
  }

  // ---- Invariant -------------------------------------------------------------------------------

  function Numbers(reports: seq<Report>): (ns: seq<nat>)
    ensures |ns| == |reports|
  {
    seq(|reports|, i requires 0 <= i < |reports| => reports[i].number)
  }

  /** Packet `n` of endpoint `e` has been sealed. */
  ghost predicate IsSealed(e: Endpoint, n: U64) {
    1 <= n <= |e.sent| && n !in e.pending
  }

  ghost predicate EndInv(sh: Shared, e: Endpoint, role: Role) {
    && e.session.id == sh.id && e.session.role == role && e.session.key == sh.key
    && e.session.next == |e.sent|
    && (forall n | n in e.pending :: 1 <= n <= |e.sent| && e.pending[n] == e.sent[n - 1])
    && e.session.window == Replay.Run(sh.width(role), Numbers(e.reports))
    && forall i | 0 <= i < |e.reports| ::
         e.reports[i].decision == Replay.DecisionAt(sh.width(role), Numbers(e.reports), i)
  }

  /** Everything `e` authenticated or reported is a sealed packet of `peer`, byte for byte. */
  ghost predicate TrafficInv(e: Endpoint, peer: Endpoint) {
    && (forall i | 0 <= i < |e.waiting| ::
          IsSealed(peer, e.waiting[i].number) && e.waiting[i].payload == peer.sent[e.waiting[i].number - 1])
    && (forall i | 0 <= i < |e.reports| ::
          IsSealed(peer, e.reports[i].number) && e.reports[i].payload == peer.sent[e.reports[i].number - 1])
  }

  /** `box` is the sealing of packet `n` of endpoint `e`, and the vault holds its payload. */
  ghost predicate Genuine(sh: Shared, vault: Vault, e: Endpoint, n: U64, box: Box) {
    && IsSealed(e, n)
    && box == PacketBox(sh.enc, e.session, n, e.sent[n - 1])
    && box in vault && vault[box] == e.sent[n - 1]
  }

  ghost predicate LogGenuine(sh: Shared, sys: System) {
    forall i | 0 <= i < |sys.sealings| ::
      Genuine(sh, sys.vault, End(sys, sys.sealings[i].role), sys.sealings[i].number, sys.sealings[i].box)
  }

  ghost predicate LogDistinct(log: seq<Sealing>) {
    forall i, j | 0 <= i < j < |log| :: log[i].role != log[j].role || log[i].number != log[j].number
  }

  ghost predicate VaultLogged(key: Bytes, vault: Vault, log: seq<Sealing>) {
    forall box | box in vault && box.key == key :: exists i :: 0 <= i < |log| && log[i].box == box
  }

  ghost predicate SealedLogged(e: Endpoint, role: Role, log: seq<Sealing>) {
    forall n: U64 | IsSealed(e, n) :: exists i :: 0 <= i < |log| && log[i].role == role && log[i].number == n
  }

  /** The log of sealings holds each sealed packet once, and every box under the key is in it. */
  ghost predicate SealInv(sh: Shared, sys: System) {
    && LogGenuine(sh, sys) && LogDistinct(sys.sealings)
    && VaultLogged(sh.key, sys.vault, sys.sealings)
    && SealedLogged(sys.ini, Initiator, sys.sealings) && SealedLogged(sys.res, Responder, sys.sealings)
  }

  ghost predicate Inv(sh: Shared, sys: System) {
    && EndInv(sh, sys.ini, Initiator) && EndInv(sh, sys.res, Responder)
    && TrafficInv(sys.ini, sys.res) && TrafficInv(sys.res, sys.ini)
    && SealInv(sh, sys)
  }

  // ---- Preservation ----------------------------------------------------------------------------

  /** `f` is `e` after a step that seals nothing: same identity, same sealed packets. */
  ghost predicate Stable(e: Endpoint, f: Endpoint) {
    && f.session.id == e.session.id && f.session.role == e.session.role && f.session.key == e.session.key
    && e.sent <= f.sent
    && forall n: U64 :: IsSealed(f, n) <==> IsSealed(e, n)
  }

  lemma StableTraffic(e: Endpoint, peer: Endpoint, peer': Endpoint)
    requires TrafficInv(e, peer) && Stable(peer, peer')
    ensures TrafficInv(e, peer')
  {
  }

  lemma StableSeals(sh: Shared, sys: System, role: Role, f: Endpoint)
    requires SealInv(sh, sys) && Stable(End(sys, role), f)
    ensures SealInv(sh, With(sys, role, f))
  {
    var sys' := With(sys, role, f);
    forall i | 0 <= i < |sys.sealings|
      ensures Genuine(sh, sys'.vault, End(sys', sys'.sealings[i].role), sys'.sealings[i].number, sys'.sealings[i].box)
    {
      var z := sys.sealings[i];
      assert Genuine(sh, sys.vault, End(sys, z.role), z.number, z.box);
    }
  }

  /** Replacing one endpoint by a stable successor keeps the invariant. */
  lemma UpdateKeeps(sh: Shared, sys: System, role: Role, f: Endpoint)
    requires Inv(sh, sys)
    requires EndInv(sh, f, role) && Stable(End(sys, role), f) && TrafficInv(f, End(sys, Peer(role)))
    ensures Inv(sh, With(sys, role, f))
  {
    StableTraffic(End(sys, Peer(role)), End(sys, role), f);
    StableSeals(sh, sys, role, f);
  }

  lemma TakeKeeps(sh: Shared, e: Endpoint, role: Role, payload: Bytes)
    requires EndInv(sh, e, role) && (|payload| <= MAX_PAYLOAD ==> |e.sent| + 1 < TWO_64)
    ensures EndInv(sh, TakeStep(e, payload), role) && Stable(e, TakeStep(e, payload))
  {
    var f := TakeStep(e, payload);
    forall n: U64 ensures IsSealed(f, n) <==> IsSealed(e, n) {
    }
  }

  lemma JudgeKeeps(sh: Shared, e: Endpoint, role: Role, i: nat)
    requires EndInv(sh, e, role)
    ensures EndInv(sh, JudgeStep(e, i), role) && Stable(e, JudgeStep(e, i))
  {
    if i < |e.waiting| {
      var f := JudgeStep(e, i);
      var before, after := Numbers(e.reports), Numbers(f.reports);
      assert after == before + [e.waiting[i].number];
      assert after[..|before|] == before;
      forall k | 0 <= k < |f.reports|
        ensures f.reports[k].decision == Replay.DecisionAt(sh.width(role), after, k)
      {
        assert after[..k] == before[..k];
      }
    }
  }

  lemma JudgeTraffic(e: Endpoint, peer: Endpoint, i: nat)
    requires TrafficInv(e, peer)
    ensures TrafficInv(JudgeStep(e, i), peer)
  {
  }

  /** The vault holds nothing under the key but sealed packets, and the nonce names their
      direction and number: a box in the peer's direction is that packet of the peer. */
  lemma BoxIsPeers(sh: Shared, sys: System, role: Role, n: U64, box: Box)
    requires LogGenuine(sh, sys) && VaultLogged(sh.key, sys.vault, sys.sealings)
    requires EndInv(sh, sys.ini, Initiator) && EndInv(sh, sys.res, Responder)
    requires box in sys.vault && box.key == sh.key && box.nonce == Nonce(PeerDir(role), n)
    ensures Genuine(sh, sys.vault, End(sys, Peer(role)), n, box)
  {
    var i :| 0 <= i < |sys.sealings| && sys.sealings[i].box == box;
    var z := sys.sealings[i];
    assert Genuine(sh, sys.vault, End(sys, z.role), z.number, z.box);
    NonceInjective(SendDir(z.role), z.number, PeerDir(role), n);
  }

  /** Only what the peer sealed authenticates, and only as the very bytes the peer sent. */
  lemma ReceivedIsSealed(sh: Shared, sys: System, role: Role, wire: Bytes, p: Plain)
    requires LogGenuine(sh, sys) && VaultLogged(sh.key, sys.vault, sys.sealings)
    requires EndInv(sh, sys.ini, Initiator) && EndInv(sh, sys.res, Responder)
    requires Authenticate(sys.vault, End(sys, role).session, wire) == Ok(p)
    ensures IsSealed(End(sys, Peer(role)), p.number)
    ensures p.payload == End(sys, Peer(role)).sent[p.number - 1]
    ensures wire == PacketWire(sh.enc, End(sys, Peer(role)).session, p.number, p.payload)
  {
    assert End(sys, role).session.key == sh.key && End(sys, role).session.role == role;
    AuthenticatedIsBoxed(sys.vault, End(sys, role).session, wire, p);
    var aad, ct := wire[..DATA_HEADER_SIZE], wire[DATA_HEADER_SIZE..];
    BoxIsPeers(sh, sys, role, p.number, Box(sh.key, Nonce(PeerDir(role), p.number), aad, ct));
    assert wire == aad + ct;
  }

  lemma AcceptKeeps(sh: Shared, e: Endpoint, role: Role, peer: Endpoint, p: Plain)
    requires EndInv(sh, e, role) && TrafficInv(e, peer)
    requires IsSealed(peer, p.number) && p.payload == peer.sent[p.number - 1]
    ensures var f := e.(waiting := e.waiting + [p]);
            EndInv(sh, f, role) && Stable(e, f) && TrafficInv(f, peer)
  {
  }

  lemma ReceiveKeeps(sh: Shared, sys: System, role: Role, p: Plain)
    requires Inv(sh, sys)
    requires IsSealed(End(sys, Peer(role)), p.number) && p.payload == End(sys, Peer(role)).sent[p.number - 1]
    ensures Inv(sh, With(sys, role, ReceiveStep(End(sys, role), Ok(p))))
  {
    AcceptKeeps(sh, End(sys, role), role, End(sys, Peer(role)), p);
    UpdateKeeps(sh, sys, role, ReceiveStep(End(sys, role), Ok(p)));
  }

  lemma SealTraffic(e: Endpoint, peer: Endpoint, n: U64)
    requires n in peer.pending
    requires TrafficInv(e, peer)
    ensures TrafficInv(e, peer.(pending := peer.pending - {n}))
  {
  }

  /** The nonce of a packet that is still pending is not used by any box under the key. */
  lemma PendingIsNew(sh: Shared, sys: System, role: Role, n: U64, i: nat)
    requires LogGenuine(sh, sys) && EndInv(sh, sys.ini, Initiator) && EndInv(sh, sys.res, Responder)
    requires n in End(sys, role).pending && i < |sys.sealings|
    ensures sys.sealings[i].box != PacketBox(sh.enc, End(sys, role).session, n, End(sys, role).pending[n])
    ensures sys.sealings[i].role != role || sys.sealings[i].number != n
  {
    var z := sys.sealings[i];
    assert Genuine(sh, sys.vault, End(sys, z.role), z.number, z.box);
    NonceInjective(SendDir(z.role), z.number, SendDir(role), n);
  }

  lemma SealLogGenuine(sh: Shared, sys: System, role: Role, n: U64)
    requires LogGenuine(sh, sys) && EndInv(sh, sys.ini, Initiator) && EndInv(sh, sys.res, Responder)
    requires n in End(sys, role).pending
    ensures LogGenuine(sh, SealStep(sh, sys, role, n))
  {
    var sys' := SealStep(sh, sys, role, n);
    forall i | 0 <= i < |sys'.sealings|
      ensures Genuine(sh, sys'.vault, End(sys', sys'.sealings[i].role), sys'.sealings[i].number, sys'.sealings[i].box)
    {
      if i < |sys.sealings| {
        var z := sys.sealings[i];
        assert Genuine(sh, sys.vault, End(sys, z.role), z.number, z.box);
        PendingIsNew(sh, sys, role, n, i);
      }
    }
  }

  lemma SealLogDistinct(sh: Shared, sys: System, role: Role, n: U64)
    requires LogGenuine(sh, sys) && EndInv(sh, sys.ini, Initiator) && EndInv(sh, sys.res, Responder)
    requires LogDistinct(sys.sealings) && n in End(sys, role).pending
    ensures LogDistinct(SealStep(sh, sys, role, n).sealings)
  {
    forall i | 0 <= i < |sys.sealings|
      ensures sys.sealings[i].role != role || sys.sealings[i].number != n
    {
      PendingIsNew(sh, sys, role, n, i);
    }
  }

  lemma LogAppend(key: Bytes, vault: Vault, log: seq<Sealing>, z: Sealing, plain: Bytes)
    requires VaultLogged(key, vault, log)
    ensures VaultLogged(key, vault[z.box := plain], log + [z])
  {
    forall box | box in vault[z.box := plain] && box.key == key
      ensures exists i :: 0 <= i < |log + [z]| && (log + [z])[i].box == box
    {
      if box == z.box {
        assert (log + [z])[|log|].box == box;
      } else {
        var i :| 0 <= i < |log| && log[i].box == box;
        assert (log + [z])[i].box == box;
      }
    }
  }

  lemma SealedAppend(e: Endpoint, f: Endpoint, role: Role, log: seq<Sealing>, z: Sealing)
    requires SealedLogged(e, role, log)
    requires forall n: U64 | IsSealed(f, n) :: IsSealed(e, n) || (z.role == role && z.number == n)
    ensures SealedLogged(f, role, log + [z])
  {
    forall n: U64 | IsSealed(f, n)
      ensures exists i :: 0 <= i < |log + [z]| && (log + [z])[i].role == role && (log + [z])[i].number == n
    {
      if IsSealed(e, n) {
        var i :| 0 <= i < |log| && log[i].role == role && log[i].number == n;
        assert (log + [z])[i].role == role;
      } else {
        assert (log + [z])[|log|].role == role;
      }
    }
  }

  lemma SealKeeps(sh: Shared, sys: System, role: Role, n: U64)
    requires Inv(sh, sys) && n in End(sys, role).pending
    ensures Inv(sh, SealStep(sh, sys, role, n))
  {
    hide LogGenuine, LogDistinct, VaultLogged, SealedLogged, PacketBox, Replay.Run, Replay.DecisionAt;
    var sys' := SealStep(sh, sys, role, n);
    var z := sys'.sealings[|sys.sealings|];
    SealLogGenuine(sh, sys, role, n);
    SealLogDistinct(sh, sys, role, n);
    LogAppend(sh.key, sys.vault, sys.sealings, z, End(sys, role).pending[n]);
    SealedAppend(sys.ini, sys'.ini, Initiator, sys.sealings, z);
    SealedAppend(sys.res, sys'.res, Responder, sys.sealings, z);
    SealTraffic(End(sys, Peer(role)), End(sys, role), n);
    assert EndInv(sh, End(sys', role), role);
    assert TrafficInv(End(sys', role), End(sys', Peer(role)));
  }

  lemma ForeignKeeps(sh: Shared, sys: System, box: Box, plain: Bytes)
    requires Inv(sh, sys) && box.key != sh.key
    ensures Inv(sh, sys.(vault := sys.vault[box := plain]))
  {
    var sys' := sys.(vault := sys.vault[box := plain]);
    forall i | 0 <= i < |sys.sealings|
      ensures Genuine(sh, sys'.vault, End(sys', sys'.sealings[i].role), sys'.sealings[i].number, sys'.sealings[i].box)
    {
      var z := sys.sealings[i];
      assert Genuine(sh, sys.vault, End(sys, z.role), z.number, z.box);
    }
  }

  lemma WireKeeps(sh: Shared, sys: System, role: Role, wire: Bytes, r: Result<Plain, SessionError>)
    requires Inv(sh, sys) && r == Authenticate(sys.vault, End(sys, role).session, wire)
    ensures Inv(sh, With(sys, role, ReceiveStep(End(sys, role), r)))
  {
    hide EndInv, TrafficInv, Authenticate;
    if r.Ok? {
      ReceivedIsSealed(sh, sys, role, wire, r.value);
      ReceiveKeeps(sh, sys, role, r.value);
    } else {
      assert With(sys, role, ReceiveStep(End(sys, role), r)) == sys;
    }
  }

  lemma TakeTraffic(e: Endpoint, peer: Endpoint, payload: Bytes)
    requires TrafficInv(e, peer)
    ensures TrafficInv(TakeStep(e, payload), peer)
  {
  }

  lemma TakeStepKeeps(sh: Shared, sys: System, role: Role, payload: Bytes)
    requires Inv(sh, sys) && (|payload| <= MAX_PAYLOAD ==> |End(sys, role).sent| + 1 < TWO_64)
    ensures Inv(sh, With(sys, role, TakeStep(End(sys, role), payload)))
  {
    TakeKeeps(sh, End(sys, role), role, payload);
    TakeTraffic(End(sys, role), End(sys, Peer(role)), payload);
    UpdateKeeps(sh, sys, role, TakeStep(End(sys, role), payload));
  }

  lemma JudgeStepKeeps(sh: Shared, sys: System, role: Role, i: nat)
    requires Inv(sh, sys)
    ensures Inv(sh, With(sys, role, JudgeStep(End(sys, role), i)))
  {
    JudgeKeeps(sh, End(sys, role), role, i);
    JudgeTraffic(End(sys, role), End(sys, Peer(role)), i);
    UpdateKeeps(sh, sys, role, JudgeStep(End(sys, role), i));
  }

  lemma StepKeeps(sh: Shared, sys: System, ev: Event)
    requires Inv(sh, sys)
    requires ev.Take? && |ev.payload| <= MAX_PAYLOAD ==> |End(sys, ev.role).sent| + 1 < TWO_64
    ensures Inv(sh, Step(sh, sys, ev))
  {
    match ev
    case Take(role, payload) => TakeStepKeeps(sh, sys, role, payload);
    case Judge(role, i) => JudgeStepKeeps(sh, sys, role, i);
    case SealOne(role, n) => if n in End(sys, role).pending { SealKeeps(sh, sys, role, n); }
    case Receive(role, wire) => WireKeeps(sh, sys, role, wire, Authenticate(sys.vault, End(sys, role).session, wire));
    case Foreign(box, plain) => if box.key != sh.key { ForeignKeeps(sh, sys, box, plain); }
  }

  // ---- Every run -------------------------------------------------------------------------------

  /** How many packet numbers `role` takes in the run. */
  function Taken(evs: seq<Event>, role: Role): nat {
    if evs == [] then 0
    else
      var ev := evs[|evs| - 1];
      Taken(evs[..|evs| - 1], role) + if ev.Take? && ev.role == role && |ev.payload| <= MAX_PAYLOAD then 1 else 0
  }

  ghost predicate InBudget(evs: seq<Event>) {
    Taken(evs, Initiator) < TWO_64 && Taken(evs, Responder) < TWO_64
  }

  lemma StartInv(sh: Shared)
    ensures Inv(sh, Start(sh))
  {
    assert Numbers([]) == [];
  }

  lemma SentGrows(sh: Shared, sys: System, ev: Event, role: Role)
    ensures |End(Step(sh, sys, ev), role).sent|
         == |End(sys, role).sent| + if ev.Take? && ev.role == role && |ev.payload| <= MAX_PAYLOAD then 1 else 0
  {
  }

  /** The invariant holds at the end of every run in which each endpoint sends fewer than 2^64
      packets. */
  lemma {:induction false} ExecInv(sh: Shared, evs: seq<Event>)
    requires InBudget(evs)
    ensures Inv(sh, Exec(sh, evs))
    ensures |Exec(sh, evs).ini.sent| == Taken(evs, Initiator) && |Exec(sh, evs).res.sent| == Taken(evs, Responder)
  {
    if evs == [] {
      StartInv(sh);
    } else {
      var front, ev := evs[..|evs| - 1], evs[|evs| - 1];
      ExecInv(sh, front);
      StepKeeps(sh, Exec(sh, front), ev);
      SentGrows(sh, Exec(sh, front), ev, Initiator);
      SentGrows(sh, Exec(sh, front), ev, Responder);
    }
  }

  /** `sys` is where some run ends in which each endpoint sent fewer than 2^64 packets. */
  ghost predicate Reachable(sh: Shared, sys: System) {
    exists evs :: InBudget(evs) && sys == Exec(sh, evs)
  }

  lemma ReachableInv(sh: Shared, sys: System)
    requires Reachable(sh, sys)
    ensures Inv(sh, sys)
  {
    var evs :| InBudget(evs) && sys == Exec(sh, evs);
    ExecInv(sh, evs);
  }

  lemma RoleInv(sh: Shared, sys: System, role: Role)
    requires Reachable(sh, sys)
    ensures EndInv(sh, End(sys, role), role) && TrafficInv(End(sys, role), End(sys, Peer(role)))
  {
    ReachableInv(sh, sys);
  }

  /** Safety: in every run, whatever an endpoint reports was sealed by its peer under that number and
      is byte-identical to it. */
  lemma DeliveredGenuine(sh: Shared, sys: System, role: Role, i: nat)
    requires Reachable(sh, sys) && i < |End(sys, role).reports|
    ensures var r, peer := End(sys, role).reports[i], End(sys, Peer(role));
            IsSealed(peer, r.number) && r.payload == peer.sent[r.number - 1]
  {
    RoleInv(sh, sys, role);
  }

  /** Safety: in every run, no packet is reported as a first copy twice. */
  lemma DeliveredOnce(sh: Shared, sys: System, role: Role, i: nat, j: nat)
    requires sh.width(role) > 0 && Reachable(sh, sys) && i < j < |End(sys, role).reports|
    requires End(sys, role).reports[i].number == End(sys, role).reports[j].number
    ensures End(sys, role).reports[j].decision != Replay.FirstCopy
  {
    RoleInv(sh, sys, role);
    Replay.FirstCopyAtMostOnce(sh.width(role), Numbers(End(sys, role).reports), i, j);
  }

  /** Any datagram other than the very bytes of a packet the peer sealed changes nothing at all: not
      the window, not a counter, not a report. */
  lemma ForgeryHasNoEffect(sh: Shared, sys: System, role: Role, wire: Bytes)
    requires Reachable(sh, sys)
    requires var peer := End(sys, Peer(role));
             forall n: U64 | IsSealed(peer, n) :: wire != PacketWire(sh.enc, peer.session, n, peer.sent[n - 1])
    ensures Step(sh, sys, Receive(role, wire)) == sys
  {
    ReachableInv(sh, sys);
    var r := Authenticate(sys.vault, End(sys, role).session, wire);
    if r.Ok? {
      ReceivedIsSealed(sh, sys, role, wire, r.value);
    }
  }

  /** A copy of packet `n` of the peer that arrives and is judged next. */
  function Arrival(sh: Shared, sys: System, role: Role, n: U64): System
    requires 1 <= n <= |End(sys, Peer(role)).sent|
  {
    var peer := End(sys, Peer(role));
    var sys' := Step(sh, sys, Receive(role, PacketWire(sh.enc, peer.session, n, peer.sent[n - 1])));
    Step(sh, sys', Judge(role, |End(sys, role).waiting|))
  }

  lemma SealedAuthenticates(sh: Shared, sys: System, role: Role, n: U64)
    requires Inv(sh, sys) && !IsZero(sh.id) && IsSealed(End(sys, Peer(role)), n)
    ensures var peer := End(sys, Peer(role));
            var wire := PacketWire(sh.enc, peer.session, n, peer.sent[n - 1]);
            Authenticate(sys.vault, End(sys, role).session, wire) == Ok(Plain(n, peer.sent[n - 1]))
  {
    var peer := End(sys, Peer(role));
    assert SealedLogged(peer, Peer(role), sys.sealings);
    var i :| 0 <= i < |sys.sealings| && sys.sealings[i].role == Peer(role) && sys.sealings[i].number == n;
    assert Genuine(sh, sys.vault, End(sys, sys.sealings[i].role), n, sys.sealings[i].box);
    WireAuthenticates(sh.enc, sys.vault, peer.session, End(sys, role).session, n, peer.sent[n - 1]);
  }

  lemma ArrivalReports(sh: Shared, sys: System, role: Role, n: U64)
    requires 1 <= n <= |End(sys, Peer(role)).sent|
    requires var peer := End(sys, Peer(role));
             Authenticate(sys.vault, End(sys, role).session, PacketWire(sh.enc, peer.session, n, peer.sent[n - 1]))
             == Ok(Plain(n, peer.sent[n - 1]))
    ensures var e := End(sys, role);
            End(Arrival(sh, sys, role, n), role).reports
            == e.reports + [Report(n, End(sys, Peer(role)).sent[n - 1], Replay.Decide(e.session.window, n))]
  {
  }

  /** Delivery: a copy of a sealed packet is reported with its payload, and as a first copy exactly
      when that packet was not reported as one before and has not been overtaken by a whole window. */
  lemma CopyDelivered(sh: Shared, sys: System, role: Role, n: U64, d: Replay.Decision)
    requires sh.width(role) > 0 && !IsZero(sh.id) && Reachable(sh, sys) && IsSealed(End(sys, Peer(role)), n)
    requires d == Replay.Decide(End(sys, role).session.window, n)
    ensures End(Arrival(sh, sys, role, n), role).reports
         == End(sys, role).reports + [Report(n, End(sys, Peer(role)).sent[n - 1], d)]
    ensures var rs := End(sys, role).reports;
            d == Replay.FirstCopy <==>
            Replay.Highest(Numbers(rs)) < n + sh.width(role)
            && forall i | 0 <= i < |rs| && rs[i].number == n :: rs[i].decision != Replay.FirstCopy
  {
    ReachableInv(sh, sys);
    SealedAuthenticates(sh, sys, role, n);
    ArrivalReports(sh, sys, role, n);
    RoleInv(sh, sys, role);
    DecisionOfNext(sh, End(sys, role), role, n);
  }

  lemma DecisionOfNext(sh: Shared, e: Endpoint, role: Role, n: U64)
    requires sh.width(role) > 0 && EndInv(sh, e, role) && n > 0
    ensures Replay.Decide(e.session.window, n) == Replay.FirstCopy <==>
            Replay.Highest(Numbers(e.reports)) < n + sh.width(role)
            && forall i | 0 <= i < |e.reports| && e.reports[i].number == n :: e.reports[i].decision != Replay.FirstCopy
  {
    var ns := Numbers(e.reports);
    Replay.HistoryDecides(sh.width(role), ns, n);
    if Replay.Highest(ns) < n + sh.width(role) {
      Replay.ArrivedIffAccepted(sh.width(role), ns, n);
      if n in ns {
        var i :| 0 <= i < |ns| && ns[i] == n && Replay.DecisionAt(sh.width(role), ns, i) == Replay.FirstCopy;
        assert e.reports[i].decision == Replay.FirstCopy;
      }
    }
  }

  /** Dual-path delivery: if no copy is overtaken by a whole window, every packet of which at least
      one copy got through is delivered exactly once, whichever copies were lost. */
  lemma ExactlyOncePerRun(sh: Shared, sys: System, role: Role, i: nat) returns (at: nat)
    requires sh.width(role) > 0 && Reachable(sh, sys) && i < |End(sys, role).reports|
    requires Replay.BoundedSkew(sh.width(role), Numbers(End(sys, role).reports))
    ensures var rs := End(sys, role).reports;
            && at < |rs| && rs[at].number == rs[i].number && rs[at].decision == Replay.FirstCopy
            && forall j | 0 <= j < |rs| && rs[j].number == rs[i].number && j != at :: rs[j].decision == Replay.Duplicate
  {
    RoleInv(sh, sys, role);
    DeliveredGenuine(sh, sys, role, i);
    var ns := Numbers(End(sys, role).reports);
    assert ns[i] in ns;
    at := Replay.ExactlyOnce(sh.width(role), ns, ns[i]);
  }

  /** In every run, no two sealings under the shared key use the same nonce. */
  lemma NonceNeverReused(sh: Shared, sys: System, i: nat, j: nat)
    requires Reachable(sh, sys) && i < j < |sys.sealings|
    ensures sys.sealings[i].box.key == sh.key == sys.sealings[j].box.key
    ensures sys.sealings[i].box.nonce != sys.sealings[j].box.nonce
  {
    ReachableInv(sh, sys);
    var a, b := sys.sealings[i], sys.sealings[j];
    assert Genuine(sh, sys.vault, End(sys, a.role), a.number, a.box);
    assert Genuine(sh, sys.vault, End(sys, b.role), b.number, b.box);
    NonceInjective(SendDir(a.role), a.number, SendDir(b.role), b.number);
  }

  /** The budget is what uniqueness rests on: the counter is 64 bits wide, so the numbers taken by
      the `i`-th and `j`-th sends of a session coincide exactly when 2^64 divides `j - i`. */
  lemma NumbersRepeatExactly(s: Session, i: nat, j: nat)
    requires i <= j
    ensures TakenNumber(s, i) == TakenNumber(s, j) <==> (j - i) % TWO_64 == 0
  {
    NumberTaken(s, i);
    NumberTaken(s, j);
    Modular.SameRemainder(s.next + i, s.next + j, TWO_64);
  }

  function TakenNumber(s: Session, i: nat): U64
    decreases i
  {
    if i == 0 then s.next else TakenNumber(Assign(s), i - 1)
  }

  lemma {:induction false} NumberTaken(s: Session, i: nat)
    ensures TakenNumber(s, i) == (s.next + i) % TWO_64
    decreases i
  {
    if i > 0 {
      NumberTaken(Assign(s), i - 1);
      Modular.AddRemainder(s.next + 1, i - 1, TWO_64);
    }
  }
}
