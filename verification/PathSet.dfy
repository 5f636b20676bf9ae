/** The return paths of each session: endpoints recently seen, kept in slices that are refreshed,
    appended to and compacted in place. */
module PathSets {
  import opened Basics

  type Time = int
  datatype AddrPort = AddrPort(addr: Bytes, port: U16)
  datatype Entry = Entry(addr: AddrPort, lastSeen: Time)

  // ---- One session's entries as a value --------------------------------------------------------

  /** Refreshes the entry of `a`, or appends one. */
  function RecordIn(es: seq<Entry>, a: AddrPort, now: Time): seq<Entry> {
    if es == [] then [Entry(a, now)]
    else if es[0].addr == a then [Entry(a, now)] + es[1..]
    else [es[0]] + RecordIn(es[1..], a, now)
  }

  /** The entries seen strictly after `cutoff`, in order. */
  function LiveIn(es: seq<Entry>, cutoff: Time): seq<Entry> {
    if es == [] then []
    else
      var front, e := LiveIn(es[..|es| - 1], cutoff), es[|es| - 1];
      if e.lastSeen > cutoff then front + [e] else front
  }

  function Addrs(es: seq<Entry>): (r: seq<AddrPort>)
    ensures |r| == |es|
  {
    seq(|es|, i requires 0 <= i < |es| => es[i].addr)
  }

  type Paths = map<SessionId, seq<Entry>>

  function EntriesOf(m: Paths, id: SessionId): seq<Entry> {
    if id in m then m[id] else []
  }

  function RecordState(m: Paths, id: SessionId, a: AddrPort, now: Time): Paths {
    m[id := RecordIn(EntriesOf(m, id), a, now)]
  }

  /** Pruning keeps the live entries and forgets a session that has none. */
  function PruneState(m: Paths, id: SessionId, cutoff: Time): Paths {
    var live := LiveIn(EntriesOf(m, id), cutoff);
    if live == [] then m - {id} else m[id := live]
  }

  function FreshIn(m: Paths, id: SessionId, cutoff: Time): seq<AddrPort> {
    Addrs(LiveIn(EntriesOf(m, id), cutoff))
  }

  ghost predicate DistinctAddrs(es: seq<Entry>) {
    forall i, j | 0 <= i < j < |es| :: es[i].addr != es[j].addr
  }

  /** `t` is when `a` was last seen according to `es`. */
  ghost predicate Holds(es: seq<Entry>, a: AddrPort, t: Time) {
    exists i :: 0 <= i < |es| && es[i] == Entry(a, t)
  }

  lemma {:induction false} RecordShape(es: seq<Entry>, a: AddrPort, now: Time, b: AddrPort, t: Time)
    requires DistinctAddrs(es)
    ensures Holds(RecordIn(es, a, now), b, t) <==> (if a == b then t == now else Holds(es, b, t))
  {
    var r := RecordIn(es, a, now);
    if es == [] {
      assert r[0] == Entry(a, now);
    } else if es[0].addr == a {
      assert r[0] == Entry(a, now);
      forall i | 0 < i < |es| ensures r[i] == es[i] && es[i].addr != a {
      }
    } else {
      RecordShape(es[1..], a, now, b, t);
      HoldsTail(es, b, t);
      HoldsTail(r, b, t);
      assert r[1..] == RecordIn(es[1..], a, now);
    }
  }

  lemma HoldsTail(es: seq<Entry>, a: AddrPort, t: Time)
    requires es != []
    ensures Holds(es, a, t) <==> es[0] == Entry(a, t) || Holds(es[1..], a, t)
  {
    if Holds(es, a, t) {
      var i :| 0 <= i < |es| && es[i] == Entry(a, t);
      if i > 0 { assert es[1..][i - 1] == Entry(a, t); }
    }
    if Holds(es[1..], a, t) {
      var i :| 0 <= i < |es[1..]| && es[1..][i] == Entry(a, t);
      assert es[i + 1] == Entry(a, t);
    }
  }

  lemma HoldsFront(es: seq<Entry>, a: AddrPort, t: Time)
    requires es != []
    ensures Holds(es, a, t) <==> es[|es| - 1] == Entry(a, t) || Holds(es[..|es| - 1], a, t)
  {
    if Holds(es, a, t) {
      var i :| 0 <= i < |es| && es[i] == Entry(a, t);
      if i < |es| - 1 { assert es[..|es| - 1][i] == Entry(a, t); }
    }
    if Holds(es[..|es| - 1], a, t) {
      var i :| 0 <= i < |es| - 1 && es[..|es| - 1][i] == Entry(a, t);
      assert es[i] == Entry(a, t);
    }
  }

  lemma {:induction false} RecordDistinct(es: seq<Entry>, a: AddrPort, now: Time)
    requires DistinctAddrs(es)
    ensures DistinctAddrs(RecordIn(es, a, now))
  {
    if es != [] && es[0].addr != a {
      RecordDistinct(es[1..], a, now);
      var r := RecordIn(es[1..], a, now);
      forall i | 0 <= i < |r| ensures r[i].addr != es[0].addr {
        assert Holds(r, r[i].addr, r[i].lastSeen);
        RecordShape(es[1..], a, now, r[i].addr, r[i].lastSeen);
        if r[i].addr != a {
          var k :| 0 <= k < |es[1..]| && es[1..][k] == r[i];
          assert es[k + 1].addr != es[0].addr;
        }
      }
    }
  }

  lemma {:induction false} LiveShape(es: seq<Entry>, cutoff: Time, a: AddrPort, t: Time)
    ensures Holds(LiveIn(es, cutoff), a, t) <==> Holds(es, a, t) && t > cutoff
  {
    if es != [] {
      var front := es[..|es| - 1];
      LiveShape(front, cutoff, a, t);
      HoldsFront(es, a, t);
      var e, live := es[|es| - 1], LiveIn(front, cutoff);
      if e.lastSeen > cutoff {
        assert (live + [e])[..|live|] == live;
        HoldsFront(live + [e], a, t);
      }
    }
  }

  lemma {:induction false} LiveDistinct(es: seq<Entry>, cutoff: Time)
    requires DistinctAddrs(es)
    ensures DistinctAddrs(LiveIn(es, cutoff))
  {
    if es != [] {
      var front, e := es[..|es| - 1], es[|es| - 1];
      LiveDistinct(front, cutoff);
      var live := LiveIn(front, cutoff);
      forall i | 0 <= i < |live| ensures live[i].addr != e.addr {
        assert Holds(live, live[i].addr, live[i].lastSeen);
        LiveShape(front, cutoff, live[i].addr, live[i].lastSeen);
        var k :| 0 <= k < |front| && front[k] == live[i];
        assert es[k].addr != e.addr;
      }
    }
  }

  // ---- Order -----------------------------------------------------------------------------------

  /** Recording an endpoint keeps the others where they are: a known one is refreshed in its place, a new
      one goes last. */
  lemma {:induction false} RecordInPlace(es: seq<Entry>, a: AddrPort, now: Time)
    ensures var r := RecordIn(es, a, now);
            if (exists i :: 0 <= i < |es| && es[i].addr == a)
            then |r| == |es| && forall i | 0 <= i < |es| :: r[i].addr == es[i].addr
            else r == es + [Entry(a, now)]
  {
    if es != [] && es[0].addr != a {
      RecordInPlace(es[1..], a, now);
      var r := RecordIn(es[1..], a, now);
      assert forall i | 1 <= i < |es| :: es[i] == es[1..][i - 1];
      if i :| 0 <= i < |es| && es[i].addr == a {
        assert es[1..][i - 1].addr == a;
      }
      if i :| 0 <= i < |es[1..]| && es[1..][i].addr == a {
        assert es[i + 1].addr == a;
      } else {
        assert es == [es[0]] + es[1..];
      }
    }
  }

  /** The live entries keep their order: each stands behind as many as are live before it. */
  lemma {:induction false} LiveInPlace(es: seq<Entry>, cutoff: Time, i: nat)
    requires i < |es| && es[i].lastSeen > cutoff
    ensures var k := |LiveIn(es[..i], cutoff)|; k < |LiveIn(es, cutoff)| && LiveIn(es, cutoff)[k] == es[i]
  {
    var front := es[..|es| - 1];
    if i < |front| {
      LiveInPlace(front, cutoff, i);
      assert front[..i] == es[..i];
    }
  }

  // ---- Every run -------------------------------------------------------------------------------

  datatype Event = Seen(id: SessionId, addr: AddrPort, at: Time) | Asked(id: SessionId, at: Time)

  function Run(ttl: int, evs: seq<Event>): Paths {
    if evs == [] then map[]
    else
      var m := Run(ttl, evs[..|evs| - 1]);
      match evs[|evs| - 1]
      case Seen(id, a, at) => RecordState(m, id, a, at)
      case Asked(id, at) => PruneState(m, id, at - ttl)
  }

  /** When `a` was last recorded for `id` in the whole history. */
  function Latest(evs: seq<Event>, id: SessionId, a: AddrPort): Option<Time> {
    if evs == [] then None
    else
      var ev := evs[|evs| - 1];
      if ev.Seen? && ev.id == id && ev.addr == a then Some(ev.at) else Latest(evs[..|evs| - 1], id, a)
  }

  /** A query after the latest recording of `a` for `id` came so late that it dropped the entry. */
  predicate Pruned(ttl: int, evs: seq<Event>, id: SessionId, a: AddrPort) {
    if evs == [] then false
    else
      var front, ev := evs[..|evs| - 1], evs[|evs| - 1];
      if ev.Seen? && ev.id == id && ev.addr == a then false
      else
        || Pruned(ttl, front, id, a)
        || (ev.Asked? && ev.id == id && Latest(front, id, a).Some? && Latest(front, id, a).value <= ev.at - ttl)
  }

  /** What any history leaves behind, whatever its clock did: one entry per endpoint, with its latest
      time, for exactly the endpoints that no query has dropped since. */
  lemma {:induction false} RunShape(ttl: int, evs: seq<Event>, id: SessionId, a: AddrPort, t: Time)
    ensures DistinctAddrs(EntriesOf(Run(ttl, evs), id))
    ensures Holds(EntriesOf(Run(ttl, evs), id), a, t) <==> Latest(evs, id, a) == Some(t) && !Pruned(ttl, evs, id, a)
  {
    if evs != [] {
      var front, ev := evs[..|evs| - 1], evs[|evs| - 1];
      RunShape(ttl, front, id, a, t);
      var es := EntriesOf(Run(ttl, front), id);
      if ev.id == id {
        match ev
        case Seen(_, b, at) =>
          RecordDistinct(es, b, at);
          RecordShape(es, b, at, a, t);
        case Asked(_, at) =>
          LiveDistinct(es, at - ttl);
          LiveShape(es, at - ttl, a, t);
      }
    }
  }

  lemma NoRepeats(es: seq<Entry>)
    requires DistinctAddrs(es)
    ensures forall i, j | 0 <= i < j < |es| :: Addrs(es)[i] != Addrs(es)[j]
  {
  }

  lemma InAddrs(es: seq<Entry>, a: AddrPort)
    ensures a in Addrs(es) <==> exists t :: Holds(es, a, t)
  {
    if a in Addrs(es) {
      var i :| 0 <= i < |es| && Addrs(es)[i] == a;
      assert Holds(es, a, es[i].lastSeen);
    }
    if t :| Holds(es, a, t) {
      var i :| 0 <= i < |es| && es[i] == Entry(a, t);
      assert Addrs(es)[i] == a;
    }
  }

  /** For every history and every clock: the endpoints returned are, without repeats, exactly those
      whose latest recording is strictly within the time to live and was not dropped since. */
  lemma FreshExactly(ttl: int, evs: seq<Event>, now: Time, id: SessionId, a: AddrPort)
    ensures var out := FreshIn(Run(ttl, evs), id, now - ttl);
            && (forall i, j | 0 <= i < j < |out| :: out[i] != out[j])
            && (a in out <==> Latest(evs, id, a).Some? && Latest(evs, id, a).value > now - ttl && !Pruned(ttl, evs, id, a))
  {
    hide Run, Latest, Pruned, LiveIn, Addrs, Holds;
    var es := EntriesOf(Run(ttl, evs), id);
    var live := LiveIn(es, now - ttl);
    RunShape(ttl, evs, id, a, 0);
    LiveDistinct(es, now - ttl);
    NoRepeats(live);
    InAddrs(live, a);
    if t :| Holds(live, a, t) {
      LiveShape(es, now - ttl, a, t);
      RunShape(ttl, evs, id, a, t);
    }
    if Latest(evs, id, a).Some? {
      var t := Latest(evs, id, a).value;
      RunShape(ttl, evs, id, a, t);
      LiveShape(es, now - ttl, a, t);
    }
  }

  /** The law that every endpoint with a fresh latest recording is returned holds exactly when no
      query has dropped it while it is still fresh. */
  lemma LawExactly(ttl: int, evs: seq<Event>, now: Time, id: SessionId, a: AddrPort)
    ensures var isFresh := Latest(evs, id, a).Some? && Latest(evs, id, a).value > now - ttl;
            (a in FreshIn(Run(ttl, evs), id, now - ttl) <==> isFresh) <==> !(isFresh && Pruned(ttl, evs, id, a))
  {
    FreshExactly(ttl, evs, now, id, a);
  }

  /** The clock never runs backwards over `evs` and has not passed `now`. */
  ghost predicate Monotone(evs: seq<Event>, now: Time) {
    && (forall i, j | 0 <= i < j < |evs| :: evs[i].at <= evs[j].at)
    && (forall i | 0 <= i < |evs| :: evs[i].at <= now)
  }

  /** Under such a clock whatever was dropped has expired for good. */
  lemma {:induction false} DroppedHasExpired(ttl: int, evs: seq<Event>, now: Time, id: SessionId, a: AddrPort)
    requires Monotone(evs, now) && Pruned(ttl, evs, id, a)
    ensures Latest(evs, id, a).Some? && Latest(evs, id, a).value <= now - ttl
  {
    var front := evs[..|evs| - 1];
    if Pruned(ttl, front, id, a) {
      DroppedHasExpired(ttl, front, now, id, a);
    }
  }

  /** So with a clock that does not run backwards the law holds without exception. */
  lemma FreshUnderClock(ttl: int, evs: seq<Event>, now: Time, id: SessionId, a: AddrPort)
    requires Monotone(evs, now)
    ensures a in FreshIn(Run(ttl, evs), id, now - ttl) <==> Latest(evs, id, a).Some? && Latest(evs, id, a).value > now - ttl
  {
    FreshExactly(ttl, evs, now, id, a);
    if Pruned(ttl, evs, id, a) {
      DroppedHasExpired(ttl, evs, now, id, a);
    }
  }

  /** Without such a clock the exception happens: a query ahead of time prunes an endpoint that a later
      query at an earlier time should still have returned. */
  lemma BackwardsClockLoses(id: SessionId, a: AddrPort)
    ensures var evs := [Seen(id, a, 10), Asked(id, 100)];
            && !Monotone(evs, 20)
            && Latest(evs, id, a) == Some(10) && 10 > 20 - 30
            && a !in FreshIn(Run(30, evs), id, 20 - 30)
  {
    var evs := [Seen(id, a, 10), Asked(id, 100)];
    assert evs[1].at > 20;
    assert evs[..1] == [Seen(id, a, 10)];
    assert evs[..1][..0] == [];
    var m := Run(30, evs[..1]);
    assert Run(30, evs[..1][..0]) == map[];
    assert m == map[id := [Entry(a, 10)]];
    assert LiveIn(m[id], 70) == [] by { assert m[id][..0] == []; }
    assert Run(30, evs) == PruneState(m, id, 70) == map[];
  }

  // ---- The path set ----------------------------------------------------------------------------

  /** A slice: the first `len` elements of a backing array that may be longer. */
  datatype Slice = Slice(buf: array<Entry>, len: nat)

  /** Every slice fits its backing array, and no two sessions share one. */
  ghost predicate Apart(paths: map<SessionId, Slice>) {
    && (forall id | id in paths :: 0 < paths[id].len <= paths[id].buf.Length)
    && (forall id, id' | id in paths && id' in paths && id != id' :: paths[id].buf != paths[id'].buf)
  }

  ghost function BuffersOf(paths: map<SessionId, Slice>): set<object> {
    set id | id in paths :: paths[id].buf
  }

  lemma ApartWith(paths: map<SessionId, Slice>, id: SessionId, s: Slice)
    requires Apart(paths) && 0 < s.len <= s.buf.Length
    requires forall k | k in paths && k != id :: paths[k].buf != s.buf
    ensures Apart(paths[id := s]) && BuffersOf(paths[id := s]) <= BuffersOf(paths) + {s.buf}
  {
  }

  lemma ApartWithout(paths: map<SessionId, Slice>, id: SessionId)
    requires Apart(paths)
    ensures Apart(paths - {id}) && BuffersOf(paths - {id}) <= BuffersOf(paths)
  {
  }

  const DEFAULT_TTL: int := 30_000_000_000  // nanoseconds

  /** Two tables that differ only at `id`. */
  lemma BesidesOne(was: Paths, now: Paths, id: SessionId, es: seq<Entry>)
    requires now.Keys == was.Keys && forall k | k in now && k != id :: now[k] == was[k]
    ensures now[id := es] == was[id := es] && now - {id} == was - {id}
  {
  }

  class PathSet {
    const ttl: int
    var paths: map<SessionId, Slice>

    ghost function Buffers(): set<object>
      reads this
    {
      BuffersOf(paths)
    }

    ghost predicate Valid()
      reads this
    {
      Apart(paths)
    }

    ghost function State(): Paths
      reads this, Buffers()
      requires Valid()
    {
      map id | id in paths :: paths[id].buf[..paths[id].len]
    }

    constructor (ttl: int)
      ensures Valid() && State() == map[]
      ensures this.ttl == if ttl <= 0 then DEFAULT_TTL else ttl
    {
      this.ttl := if ttl <= 0 then DEFAULT_TTL else ttl;
      paths := map[];
    }

    method Record(id: SessionId, addr: AddrPort, now: Time)
      requires Valid()
      modifies this, Buffers()
      ensures Valid() && fresh(Buffers() - old(Buffers()))
      ensures State() == RecordState(old(State()), id, addr, now)
    {
      if id !in paths {
        Begin(id, Entry(addr, now));
        return;
      }
      var s := paths[id];
      for i := 0 to s.len
        invariant forall k | 0 <= k < i :: s.buf[k].addr != addr
      {
        if s.buf[i].addr == addr {
          RecordAt(State()[id], addr, now, i);
          Overwrite(id, i, Entry(addr, now));
          return;
        }
      }
      RecordNew(State()[id], addr, now);
      Grow(id, Entry(addr, now));
    }

    method Begin(id: SessionId, e: Entry)
      requires Valid() && id !in paths
      modifies this
      ensures Valid() && fresh(Buffers() - old(Buffers()))
      ensures State() == old(State())[id := [e]]
    {
      var buf := new Entry[1](_ => e);
      assert buf[..1] == [e];
      Install(id, Slice(buf, 1));
    }

    /** Makes `s` the slice of `id`. */
    method Install(id: SessionId, s: Slice)
      requires Valid() && 0 < s.len <= s.buf.Length
      requires forall k | k in paths && k != id :: paths[k].buf != s.buf
      modifies this
      ensures Valid() && Buffers() <= old(Buffers()) + {s.buf}
      ensures State() == old(State())[id := s.buf[..s.len]]
    {
      ApartWith(paths, id, s);
      paths := paths[id := s];
    }

    method Remove(id: SessionId)
      requires Valid()
      modifies this
      ensures Valid() && Buffers() <= old(Buffers())
      ensures State() == old(State()) - {id}
    {
      ApartWithout(paths, id);
      paths := paths - {id};
    }

    method Overwrite(id: SessionId, i: nat, e: Entry)
      requires Valid() && id in paths && i < paths[id].len
      modifies paths[id].buf
      ensures Valid()
      ensures State() == old(State())[id := old(State())[id][i := e]]
    {
      var s := paths[id];
      s.buf[i] := e;
      assert s.buf[..s.len] == old(s.buf[..s.len])[i := e];
      assert forall k | k in paths && k != id :: paths[k].buf[..paths[k].len] == old(paths[k].buf[..paths[k].len]);
    }

    method Grow(id: SessionId, e: Entry)
      requires Valid() && id in paths
      modifies this, paths[id].buf
      ensures Valid() && fresh(Buffers() - old(Buffers()))
      ensures State() == old(State())[id := old(State())[id] + [e]]
    {
      hide PathSet.State;
      ghost var before := State();
      var t := Extend(id, e);
      BesidesOne(before, State(), id, t.buf[..t.len]);
      Install(id, t);
    }

    /** Appends behind the slice of `id`; no other session's slice is touched. */
    method Extend(id: SessionId, e: Entry) returns (t: Slice)
      requires Valid() && id in paths
      modifies paths[id].buf
      ensures Valid() && t.len == paths[id].len + 1 <= t.buf.Length
      ensures t.buf == paths[id].buf || fresh(t.buf)
      ensures t.buf[..t.len] == old(State())[id] + [e]
      ensures State().Keys == old(State()).Keys
      ensures forall k | k in State() && k != id :: State()[k] == old(State())[k]
    {
      t := Append(paths[id], e);
      assert forall k | k in paths && k != id :: paths[k].buf[..paths[k].len] == old(paths[k].buf[..paths[k].len]);
    }

    /** The endpoints of `id` seen within the time to live; expired entries are dropped in place. */
    method Fresh(id: SessionId, now: Time) returns (out: seq<AddrPort>)
      requires Valid()
      modifies this, Buffers()
      ensures Valid() && Buffers() <= old(Buffers())
      ensures State() == PruneState(old(State()), id, now - ttl)
      ensures out == FreshIn(old(State()), id, now - ttl)
    {
      if id !in paths {
        assert State() - {id} == State();
        return [];
      }
      var live := Prune(id, now - ttl);
      out := Addrs(live);
    }

    method Prune(id: SessionId, cutoff: Time) returns (live: seq<Entry>)
      requires Valid() && id in paths
      modifies this, paths[id].buf
      ensures Valid() && Buffers() <= old(Buffers())
      ensures live == LiveIn(old(State())[id], cutoff)
      ensures State() == if live == [] then old(State()) - {id} else old(State())[id := live]
    {
      hide PathSet.State, LiveIn;
      ghost var before := State();
      var n := Squeeze(id, cutoff);
      var s := paths[id];
      live := s.buf[..n];
      BesidesOne(before, State(), id, live);
      if n == 0 {
        Remove(id);
      } else {
        Install(id, Slice(s.buf, n));
      }
    }

    /** Compacts the slice of `id` where it lies; no other session's slice is touched. */
    method Squeeze(id: SessionId, cutoff: Time) returns (n: nat)
      requires Valid() && id in paths
      modifies paths[id].buf
      ensures Valid() && n <= paths[id].len
      ensures paths[id].buf[..n] == LiveIn(old(State())[id], cutoff)
      ensures State().Keys == old(State()).Keys
      ensures forall k | k in State() && k != id :: State()[k] == old(State())[k]
    {
      n := Compact(paths[id].buf, paths[id].len, cutoff);
      assert forall k | k in paths && k != id :: paths[k].buf[..paths[k].len] == old(paths[k].buf[..paths[k].len]);
    }
  }

  lemma {:induction false} RecordAt(es: seq<Entry>, a: AddrPort, now: Time, i: nat)
    requires i < |es| && es[i].addr == a && forall k | 0 <= k < i :: es[k].addr != a
    ensures RecordIn(es, a, now) == es[i := Entry(a, now)]
  {
    if i > 0 {
      RecordAt(es[1..], a, now, i - 1);
    }
  }

  lemma {:induction false} RecordNew(es: seq<Entry>, a: AddrPort, now: Time)
    requires forall k | 0 <= k < |es| :: es[k].addr != a
    ensures RecordIn(es, a, now) == es + [Entry(a, now)]
  {
    if es != [] {
      RecordNew(es[1..], a, now);
    }
  }

  /** Appends in place when the backing array has room, else into a larger copy. */
  method Append(s: Slice, e: Entry) returns (t: Slice)
    requires s.len <= s.buf.Length
    modifies s.buf
    ensures t.len == s.len + 1 <= t.buf.Length
    ensures t.buf[..t.len] == old(s.buf[..s.len]) + [e]
    ensures t.buf == s.buf || fresh(t.buf)
  {
    if s.len < s.buf.Length {
      s.buf[s.len] := e;
      return Slice(s.buf, s.len + 1);
    }
    var bigger := new Entry[2 * s.len + 1](_ => e);
    for i := 0 to s.len
      invariant forall k | 0 <= k < i :: bigger[k] == s.buf[k]
      invariant forall k | i <= k < bigger.Length :: bigger[k] == e
      invariant s.buf[..] == old(s.buf[..])
    {
      bigger[i] := s.buf[i];
    }
    assert bigger[..s.len + 1] == s.buf[..s.len] + [e];
    return Slice(bigger, s.len + 1);
  }

  /** Moves the live entries to the front of `buf`, over the ones already read. */
  method Compact(buf: array<Entry>, len: nat, cutoff: Time) returns (n: nat)
    requires len <= buf.Length
    modifies buf
    ensures n <= len && buf[..n] == LiveIn(old(buf[..len]), cutoff)
  {
    n := 0;
    ghost var es := buf[..len];
    for i := 0 to len
      invariant n <= i && buf[..n] == LiveIn(es[..i], cutoff)
      invariant forall k | i <= k < len :: buf[k] == es[k]
    {
      var e := buf[i];
      assert e == es[i];
      assert es[..i + 1][..i] == es[..i];
      if e.lastSeen > cutoff {
        buf[n] := e;
        n := n + 1;
      }
    }
    assert es[..len] == es;
  }
}
