/** The probe gateway: a fixed probe format over the FIFO window, with three counters. */
module ProbeServer {
  import opened Basics
  import opened BigEndian
  import opened FifoWindows
  import Spec = FifoSpec

  // ---- The probe format ------------------------------------------------------------------------

  type PathTag = Byte

  datatype Probe = Probe(id: PacketId, path: PathTag)

  datatype ProbeError = ShortProbe | BadMagic | UnsupportedVersion | InvalidProbe

  const PROBE_MAGIC: Bytes := [0x43, 0x56, 0x50, 0x31]  // "CVP1"
  const PROBE_SIZE: nat := 30

  function ProbeBytes(p: Probe): (b: Bytes)
    ensures |b| == PROBE_SIZE
  {
    PROBE_MAGIC + [1, p.path] + p.id.session + PutU64(p.id.number)
  }

  /** What stands where: "CVP1", the version, the path tag, the session id, the number. */
  lemma ProbeLayout(p: Probe)
    ensures var b := ProbeBytes(p);
            && |b| == 30 && b[..5] == [0x43, 0x56, 0x50, 0x31, 1] && b[5] == p.path
            && b[6..22] == p.id.session && GetU64(b[22..30]) == p.id.number
  {
    var b := ProbeBytes(p);
    assert b[22..30] == PutU64(p.id.number);
    U64RoundTrip(p.id.number);
  }

  /** Encodes a probe into a fresh buffer; an invalid identity is refused. */
  method Marshal(p: Probe) returns (r: Result<Bytes, ProbeError>)
    ensures r == if ValidId(p.id) then Ok(ProbeBytes(p)) else Err(InvalidProbe)
  {
    if !ValidId(p.id) {
      return Err(InvalidProbe);
    }
    var out := new Byte[PROBE_SIZE](_ => 0);
    CopyInto(out, 0, PROBE_MAGIC);
    out[4] := 1;
    out[5] := p.path;
    CopyInto(out, 6, p.id.session);
    CopyInto(out, 22, PutU64(p.id.number));
    assert out[..] == ProbeBytes(p);
    return Ok(out[..]);
  }

  function Unmarshal(b: Bytes): Result<Probe, ProbeError> {
    if |b| < PROBE_SIZE then Err(ShortProbe)
    else if b[0..4] != PROBE_MAGIC then Err(BadMagic)
    else if b[4] != 1 then Err(UnsupportedVersion)
    else
      var p := Probe(PacketId(b[6..22], GetU64(b[22..30])), b[5]);
      if ValidId(p.id) then Ok(p) else Err(InvalidProbe)
  }

  /** A datagram is refused for the first of these: fewer than 30 bytes, not "CVP1", not version 1, a zero
      session id or number. */
  lemma UnmarshalRefuses(b: Bytes)
    ensures Unmarshal(b) == Err(ShortProbe) <==> |b| < 30
    ensures Unmarshal(b) == Err(BadMagic) <==> |b| >= 30 && b[..4] != [0x43, 0x56, 0x50, 0x31]
    ensures Unmarshal(b) == Err(UnsupportedVersion) <==> |b| >= 30 && b[..4] == [0x43, 0x56, 0x50, 0x31] && b[4] != 1
    ensures Unmarshal(b) == Err(InvalidProbe) <==>
            && |b| >= 30 && b[..5] == [0x43, 0x56, 0x50, 0x31, 1]
            && (IsZero(b[6..22]) || GetU64(b[22..30]) == 0)
  {
    if |b| >= 30 {
      assert b[..4] == b[0..4] && b[..5] == b[..4] + [b[4]];
      assert [0x43, 0x56, 0x50, 0x31, 1][..4] == [0x43, 0x56, 0x50, 0x31];
    }
  }

  /** A marshalled probe is read back exactly, whatever bytes trail it. */
  lemma UnmarshalMarshalled(p: Probe, rest: Bytes)
    requires ValidId(p.id)
    ensures Unmarshal(ProbeBytes(p) + rest) == Ok(p)
  {
    var b := ProbeBytes(p) + rest;
    assert b[0..4] == PROBE_MAGIC;
    assert b[6..22] == p.id.session;
    assert b[22..30] == PutU64(p.id.number);
    U64RoundTrip(p.id.number);
  }

  /** Every accepted datagram begins with the marshalling of what was read from it. */
  lemma UnmarshalledIsMarshalled(b: Bytes, p: Probe)
    requires Unmarshal(b) == Ok(p)
    ensures ValidId(p.id) && b[..PROBE_SIZE] == ProbeBytes(p)
  {
    U64Bytes(b[22..30]);
    assert b[..30] == b[0..4] + [b[4], b[5]] + b[6..22] + b[22..30];
  }

  function TagName(tag: PathTag): (s: string)
    ensures s != ""
  {
    if tag == 1 then "wi-fi" else if tag == 2 then "android-usb-tether" else "unknown"
  }

  /** The tag a recorded path name stands for. */
  function TagOf(name: string): PathTag {
    if name == TagName(1) then 1 else if name == TagName(2) then 2 else 0
  }

  /** Unassigned tags all count as unknown. */
  function Normalise(tag: PathTag): PathTag {
    if tag == 1 || tag == 2 then tag else 0
  }

  lemma TagNamesRoundTrip(tag: PathTag)
    ensures TagOf(TagName(tag)) == Normalise(tag)
    ensures TagName(tag) == "wi-fi" <==> tag == 1
    ensures TagName(tag) == "android-usb-tether" <==> tag == 2
    ensures TagName(tag) == "unknown" <==> tag != 1 && tag != 2
    ensures Normalise(tag) == if 1 <= tag <= 2 then tag else 0
  {
    assert |"wi-fi"| == 5 && |"android-usb-tether"| == 18 && |"unknown"| == 7;
  }

  // ---- One datagram ----------------------------------------------------------------------------

  datatype Decision = Rejected | FirstCopy | Duplicate

  datatype Record = Record(decision: Decision, path: PathTag, firstPath: PathTag, copies: nat)

  const REJECTION: Record := Record(Rejected, 0, 0, 0)

  /** The copy a datagram stands for; an undecodable one stands for a copy the window ignores. */
  function ToCopy(datagram: Bytes): Spec.Copy {
    match Unmarshal(datagram)
    case Err(_) => Spec.Copy(PacketId(ZERO_ID, 0), "")
    case Ok(p) => Spec.Copy(p.id, TagName(p.path))
  }

  function Verdict(f: Spec.Fifo, datagram: Bytes): Record {
    match Unmarshal(datagram)
    case Err(_) => REJECTION
    case Ok(p) =>
      var o := Spec.Result(f, p.id, TagName(p.path));
      match o.decision
      case FirstCopy => Record(FirstCopy, p.path, p.path, o.copies)
      case Duplicate => Record(Duplicate, p.path, TagOf(o.firstPath), o.copies)
      case Invalid => REJECTION
  }

  /** The defensive branch is dead: a decoded probe is always usable, so it is never invalid. */
  lemma DecodedIsUsable(f: Spec.Fifo, datagram: Bytes)
    ensures Spec.Usable(ToCopy(datagram).id, ToCopy(datagram).path) <==> Unmarshal(datagram).Ok?
    ensures Verdict(f, datagram).decision == Rejected <==> Unmarshal(datagram).Err?
  {
    if Unmarshal(datagram).Ok? {
      UnmarshalledIsMarshalled(datagram, Unmarshal(datagram).value);
    }
  }

  lemma HandleRejected(s: ServerState, d: Bytes)
    requires Unmarshal(d).Err?
    ensures Verdict(s.fifo, d) == REJECTION && HandleIn(s, d) == s.(rejected := Bump(s.rejected))
  {
  }

  lemma HandleDecoded(s: ServerState, d: Bytes, p: Probe)
    requires Unmarshal(d) == Ok(p)
    ensures var o := Spec.Result(s.fifo, p.id, TagName(p.path));
            var s' := s.(fifo := Spec.Observe(s.fifo, p.id, TagName(p.path)));
            && (o.decision == Spec.FirstCopy || o.decision == Spec.Duplicate)
            && (o.decision == Spec.FirstCopy ==>
                  HandleIn(s, d) == s'.(firstCopies := Bump(s.firstCopies))
                  && Verdict(s.fifo, d) == Record(FirstCopy, p.path, p.path, o.copies))
            && (o.decision == Spec.Duplicate ==>
                  HandleIn(s, d) == s'.(duplicates := Bump(s.duplicates))
                  && Verdict(s.fifo, d) == Record(Duplicate, p.path, TagOf(o.firstPath), o.copies))
  {
    DecodedIsUsable(s.fifo, d);
  }

  class Server {
    const window: Window
    var firstCopies: U64
    var duplicates: U64
    var rejected: U64

    ghost predicate Valid()
      reads this, window, window.ring
    {
      window.Valid()
    }

    ghost function State(): ServerState
      reads this, window, window.ring
      requires Valid()
    {
      ServerState(window.State(), firstCopies, duplicates, rejected)
    }

    constructor (capacity: int)
      requires capacity > 0
      ensures Valid() && fresh(window) && fresh(window.ring)
      ensures State() == ServerState(Spec.Empty(capacity), 0, 0, 0)
    {
      window := new Window(capacity);
      firstCopies, duplicates, rejected := 0, 0, 0;
    }

    method Handle(datagram: Bytes) returns (rec: Record)
      requires Valid()
      modifies this, window, window.ring
      ensures Valid()
      ensures rec == Verdict(old(State()).fifo, datagram) && State() == HandleIn(old(State()), datagram)
    {
      rec := REJECTION;
      var decoded := Unmarshal(datagram);
      if decoded.Err? {
        HandleRejected(State(), datagram);
        rejected := Bump(rejected);
        return;
      }
      var probe := decoded.value;
      HandleDecoded(State(), datagram, probe);
      var result := window.Observe(probe.id, TagName(probe.path));
      match result.decision
      case FirstCopy =>
        firstCopies := Bump(firstCopies);
        rec := Record(FirstCopy, probe.path, probe.path, result.copies);
      case Duplicate =>
        duplicates := Bump(duplicates);
        rec := Record(Duplicate, probe.path, TagOf(result.firstPath), result.copies);
      case Invalid =>
        assert false;
    }
  }

  // ---- Every run -------------------------------------------------------------------------------

  /** The counters are unsigned 64-bit ones and wrap. */
  datatype ServerState = ServerState(fifo: Spec.Fifo, firstCopies: U64, duplicates: U64, rejected: U64)

  function Bump(n: U64): U64 {
    if n + 1 == TWO_64 then 0 else n + 1
  }

  function HandleIn(s: ServerState, datagram: Bytes): ServerState {
    var c := ToCopy(datagram);
    var s' := s.(fifo := Spec.Observe(s.fifo, c.id, c.path));
    match Verdict(s.fifo, datagram).decision
    case FirstCopy => s'.(firstCopies := Bump(s.firstCopies))
    case Duplicate => s'.(duplicates := Bump(s.duplicates))
    case Rejected => s'.(rejected := Bump(s.rejected))
  }

  function Serve(capacity: nat, datagrams: seq<Bytes>): ServerState {
    if datagrams == [] then ServerState(Spec.Empty(capacity), 0, 0, 0)
    else HandleIn(Serve(capacity, datagrams[..|datagrams| - 1]), datagrams[|datagrams| - 1])
  }

  function RecordAt(capacity: nat, datagrams: seq<Bytes>, i: nat): Record
    requires i < |datagrams|
  {
    Verdict(Serve(capacity, datagrams[..i]).fifo, datagrams[i])
  }

  function Copies(datagrams: seq<Bytes>): (r: seq<Spec.Copy>)
    ensures |r| == |datagrams|
  {
    seq(|datagrams|, i requires 0 <= i < |datagrams| => ToCopy(datagrams[i]))
  }

  /** How many of the first records carry decision `d`. */
  function Tally(capacity: nat, datagrams: seq<Bytes>, d: Decision, n: nat): nat
    requires n <= |datagrams|
  {
    if n == 0 then 0
    else Tally(capacity, datagrams, d, n - 1) + if RecordAt(capacity, datagrams, n - 1).decision == d then 1 else 0
  }

  lemma {:induction false} TallyTotal(capacity: nat, ds: seq<Bytes>, n: nat)
    requires n <= |ds|
    ensures Tally(capacity, ds, FirstCopy, n) + Tally(capacity, ds, Duplicate, n) + Tally(capacity, ds, Rejected, n) == n
  {
    if n > 0 {
      var d := RecordAt(capacity, ds, n - 1).decision;
      assert d == FirstCopy || d == Duplicate || d == Rejected;
      TallyTotal(capacity, ds, n - 1);
    }
  }

  lemma {:induction false} TallyPrefix(capacity: nat, ds: seq<Bytes>, d: Decision, n: nat)
    requires n < |ds|
    ensures Tally(capacity, ds[..|ds| - 1], d, n) == Tally(capacity, ds, d, n)
  {
    if n > 0 {
      TallyPrefix(capacity, ds, d, n - 1);
      assert ds[..|ds| - 1][..n - 1] == ds[..n - 1];
    }
  }

  lemma {:induction false} ServeFifo(capacity: nat, ds: seq<Bytes>)
    ensures Serve(capacity, ds).fifo == Spec.Run(capacity, Copies(ds))
  {
    if ds != [] {
      ServeFifo(capacity, ds[..|ds| - 1]);
      assert Copies(ds)[..|ds| - 1] == Copies(ds[..|ds| - 1]);
    }
  }

  function Counter(s: ServerState, d: Decision): U64 {
    match d
    case FirstCopy => s.firstCopies
    case Duplicate => s.duplicates
    case Rejected => s.rejected
  }

  lemma CounterStep(s: ServerState, datagram: Bytes, d: Decision)
    ensures Counter(HandleIn(s, datagram), d)
         == if Verdict(s.fifo, datagram).decision == d then Bump(Counter(s, d)) else Counter(s, d)
  {
  }

  lemma {:induction false} TallyBound(capacity: nat, ds: seq<Bytes>, d: Decision, n: nat)
    requires n <= |ds|
    ensures Tally(capacity, ds, d, n) <= n
  {
    if n > 0 {
      TallyBound(capacity, ds, d, n - 1);
    }
  }

  lemma TallyStep(capacity: nat, ds: seq<Bytes>, d: Decision)
    requires ds != []
    ensures var n := |ds| - 1;
            Tally(capacity, ds, d, |ds|)
            == Tally(capacity, ds[..n], d, n)
             + if Verdict(Serve(capacity, ds[..n]).fifo, ds[n]).decision == d then 1 else 0
  {
    TallyPrefix(capacity, ds, d, |ds| - 1);
  }

  lemma NoneCounted(capacity: nat, ds: seq<Bytes>, d: Decision)
    requires ds == []
    ensures Counter(Serve(capacity, ds), d) == 0 && Tally(capacity, ds, d, 0) == 0
  {
  }

  /** For every datagram sequence short of 2^64, each counter is the number of records with that
      decision. */
  lemma {:induction false} CounterIsTally(capacity: nat, ds: seq<Bytes>, d: Decision)
    requires |ds| < TWO_64
    ensures Counter(Serve(capacity, ds), d) == Tally(capacity, ds, d, |ds|)
  {
    hide Verdict, HandleIn, Counter, RecordAt, Tally;
    if ds == [] {
      NoneCounted(capacity, ds, d);
    } else {
      var n := |ds| - 1;
      CounterIsTally(capacity, ds[..n], d);
      CounterStep(Serve(capacity, ds[..n]), ds[n], d);
      TallyStep(capacity, ds, d);
      TallyBound(capacity, ds[..n], d, n);
    }
  }

  /** The three counters add up to the number of datagrams handled. */
  lemma CountersAddUp(capacity: nat, ds: seq<Bytes>)
    requires |ds| < TWO_64
    ensures var s := Serve(capacity, ds); s.firstCopies + s.duplicates + s.rejected == |ds|
  {
    CounterIsTally(capacity, ds, FirstCopy);
    CounterIsTally(capacity, ds, Duplicate);
    CounterIsTally(capacity, ds, Rejected);
    TallyTotal(capacity, ds, |ds|);
  }

  /** A duplicate names the normalised tag of the resident first copy of its identity, which is the
      latest one, and numbers the copies since it. */
  lemma DuplicateNamesFirst(capacity: nat, ds: seq<Bytes>, j: nat) returns (i: nat)
    requires capacity > 0 && j < |ds| && RecordAt(capacity, ds, j).decision == Duplicate
    ensures i < j && Unmarshal(ds[i]).Ok? && Unmarshal(ds[j]).Ok?
    ensures Unmarshal(ds[i]).value.id == Unmarshal(ds[j]).value.id
    ensures RecordAt(capacity, ds, i).decision == FirstCopy
    ensures forall k | i < k < j && Unmarshal(ds[k]).Ok? && Unmarshal(ds[k]).value.id == Unmarshal(ds[j]).value.id ::
              RecordAt(capacity, ds, k).decision != FirstCopy
    ensures RecordAt(capacity, ds, j).firstPath == Normalise(Unmarshal(ds[i]).value.path)
    ensures RecordAt(capacity, ds, j).copies
         == 1 + Spec.CountFrom(Copies(ds[..j]), Unmarshal(ds[j]).value.id, i)
  {
    var front := ds[..j];
    var id := Unmarshal(ds[j]).value.id;
    ServeFifo(capacity, front);
    i := Spec.ResidentRecord(capacity, Copies(front), id);
    assert Copies(front)[..i] == Copies(ds[..i]);
    ServeFifo(capacity, ds[..i]);
    DecodedIsUsable(Serve(capacity, ds[..i]).fifo, ds[i]);
    TagNamesRoundTrip(Unmarshal(ds[i]).value.path);
    forall k | i < k < j && Unmarshal(ds[k]).Ok? && Unmarshal(ds[k]).value.id == id
      ensures RecordAt(capacity, ds, k).decision != FirstCopy
    {
      NotFirst(capacity, ds, j, k);
    }
  }

  /** What is recorded of each datagram: exactly the undecodable ones are rejected; a decoded one carries
      its own tag, and a first copy of an identity the window does not remember is numbered 1 and names
      itself. */
  lemma RecordExactly(capacity: nat, ds: seq<Bytes>, j: nat)
    requires capacity > 0 && j < |ds|
    ensures var rec, d := RecordAt(capacity, ds, j), Unmarshal(ds[j]);
            && (rec.decision == Rejected <==> d.Err?) && (rec.decision == Rejected ==> rec.path == 0 && rec.firstPath == 0 && rec.copies == 0)
            && (d.Ok? ==>
                  && rec.path == d.value.path
                  && (rec.decision == FirstCopy <==> d.value.id !in Serve(capacity, ds[..j]).fifo.seen)
                  && (rec.decision == FirstCopy ==> rec.firstPath == d.value.path && rec.copies == 1))
  {
    DecodedIsUsable(Serve(capacity, ds[..j]).fifo, ds[j]);
    hide Serve, Unmarshal;
  }

  /** A decoded probe whose copy the window does not take for a first one is not recorded as one. */
  lemma NotFirst(capacity: nat, ds: seq<Bytes>, j: nat, k: nat)
    requires k < j <= |ds| && Unmarshal(ds[k]).Ok?
    requires Spec.OutcomeAt(capacity, Copies(ds[..j]), k).decision != Spec.FirstCopy
    ensures RecordAt(capacity, ds, k).decision != FirstCopy
  {
    assert Copies(ds[..j])[..k] == Copies(ds[..k]);
    ServeFifo(capacity, ds[..k]);
  }
}
