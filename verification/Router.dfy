/** The exit path: a reverse-path filter in front of the tunnel device, and return packets sealed
    for the session that leases their destination and copied to each of its fresh endpoints. */
module Routers {
  import opened Basics
  import opened SessionSpec
  import opened Sessions
  import opened GatewaySpec
  import opened Allocators
  import opened DataPlanes
  import P = PathSets

  datatype Sent = Sent(datagram: Bytes, endpoint: P.AddrPort)

  /** The datagrams the network took: `framed` once per endpoint that accepted it, in order. */
  function Accepted(framed: Bytes, dsts: seq<P.AddrPort>, accepts: P.AddrPort -> bool): seq<Sent> {
    if dsts == [] then []
    else
      var rest, ep := Accepted(framed, dsts[..|dsts| - 1], accepts), dsts[|dsts| - 1];
      if accepts(ep) then rest + [Sent(framed, ep)] else rest
  }

  /** One path failing does not block the others: exactly the accepting endpoints get a copy. */
  lemma {:induction false} AcceptedExactly(framed: Bytes, dsts: seq<P.AddrPort>, accepts: P.AddrPort -> bool, s: Sent)
    ensures s in Accepted(framed, dsts, accepts) <==> s.datagram == framed && s.endpoint in dsts && accepts(s.endpoint)
  {
    if dsts != [] {
      AcceptedExactly(framed, dsts[..|dsts| - 1], accepts, s);
      assert dsts == dsts[..|dsts| - 1] + [dsts[|dsts| - 1]];
    }
  }

  /** And each exactly one: no endpoint listed once gets two, and copies leave in the order listed. */
  lemma {:induction false} AcceptedOnce(framed: Bytes, dsts: seq<P.AddrPort>, accepts: P.AddrPort -> bool, i: nat)
    requires i < |dsts| && accepts(dsts[i])
    ensures var k := |Accepted(framed, dsts[..i], accepts)|;
            k < |Accepted(framed, dsts, accepts)| && Accepted(framed, dsts, accepts)[k] == Sent(framed, dsts[i])
    ensures |Accepted(framed, dsts[..i + 1], accepts)| == |Accepted(framed, dsts[..i], accepts)| + 1
  {
    var front := dsts[..|dsts| - 1];
    assert dsts[..i + 1][..i] == dsts[..i];
    if i < |front| {
      AcceptedOnce(framed, front, accepts, i);
      assert front[..i] == dsts[..i];
    }
  }

  lemma RefusedNone(framed: Bytes, dsts: seq<P.AddrPort>, accepts: P.AddrPort -> bool)
    ensures Accepted(framed, [], accepts) == []
    ensures dsts != [] && !accepts(dsts[|dsts| - 1]) ==> Accepted(framed, dsts, accepts) == Accepted(framed, dsts[..|dsts| - 1], accepts)
  {
  }

  datatype Verdict = BadReturn | UnknownDestination | FrameError(error: PlaneError) | SendTo(id: SessionId, framed: Bytes, dsts: seq<P.AddrPort>)

  datatype Routed = Routed(cache: Cache, vault: Vault, paths: P.Paths, verdict: Verdict)

  /** Everything one return packet does to the gateway's tables. */
  function Route(enc: Cipher, keys: Keys, capacity: int, l: Leases, cache: Cache, vault: Vault, paths: P.Paths,
                 packet: Bytes, cutoff: P.Time): Routed {
    match ParseIPv4(packet)
    case None => Routed(cache, vault, paths, BadReturn)
    case Some(inner) =>
      if inner.dst !in l.reverse then Routed(cache, vault, paths, UnknownDestination)
      else RouteTo(enc, keys, capacity, cache, vault, paths, l.reverse[inner.dst], packet, cutoff)
  }

  function RouteTo(enc: Cipher, keys: Keys, capacity: int, cache: Cache, vault: Vault, paths: P.Paths,
                   id: SessionId, packet: Bytes, cutoff: P.Time): Routed {
    var f := Frame(enc, keys, capacity, cache, vault, id, packet);
    match f.result
    case Err(e) => Routed(f.cache, f.vault, paths, FrameError(e))
    case Ok(framed) =>
      Routed(f.cache, f.vault, P.PruneState(paths, id, cutoff), SendTo(id, framed, P.FreshIn(paths, id, cutoff)))
  }

  lemma RouteCoherent(enc: Cipher, keys: Keys, capacity: int, l: Leases, cache: Cache, vault: Vault, paths: P.Paths,
                      packet: Bytes, cutoff: P.Time)
    requires Coherent(keys, cache)
    ensures Coherent(keys, Route(enc, keys, capacity, l, cache, vault, paths, packet, cutoff).cache)
  {
    hide Coherent, Frame, ParseIPv4;
    match ParseIPv4(packet)
    case None =>
    case Some(inner) =>
      if inner.dst in l.reverse {
        FrameCoherent(enc, keys, capacity, cache, vault, l.reverse[inner.dst], packet);
      }
  }

  /** A return packet is dropped for the first of these: it is no IPv4 packet, nobody leases its
      destination, it cannot be framed for the one who does; else it goes to the fresh endpoints. */
  lemma RoutesExactly(enc: Cipher, keys: Keys, capacity: int, l: Leases, cache: Cache, vault: Vault, paths: P.Paths,
                      packet: Bytes, cutoff: P.Time)
    ensures var r := Route(enc, keys, capacity, l, cache, vault, paths, packet, cutoff);
            && (r.verdict == BadReturn <==> !IsIPv4(packet))
            && (r.verdict == UnknownDestination <==> IsIPv4(packet) && AddrOf(packet[16..20]) !in l.reverse)
            && (IsIPv4(packet) && AddrOf(packet[16..20]) in l.reverse ==>
                  var id := l.reverse[AddrOf(packet[16..20])];
                  var f := Frame(enc, keys, capacity, cache, vault, id, packet);
                  && r.cache == f.cache && r.vault == f.vault
                  && match f.result
                     case Err(e) => r.verdict == FrameError(e) && r.paths == paths
                     case Ok(w) => r.verdict == SendTo(id, w, P.FreshIn(paths, id, cutoff)) && r.paths == P.PruneState(paths, id, cutoff))
            && (r.verdict.BadReturn? || r.verdict.UnknownDestination? ==> r == Routed(cache, vault, paths, r.verdict))
  {
    hide Frame, P.FreshIn, P.PruneState, AddrOf;
  }

  class Router {
    const alloc: Allocator
    const paths: P.PathSet
    const plane: DataPlane
    /** What the device was given and what the socket took, in order. */
    var written: seq<Bytes>
    var sent: seq<Sent>

    constructor (alloc: Allocator, paths: P.PathSet, plane: DataPlane)
      ensures this.alloc == alloc && this.paths == paths && this.plane == plane && written == [] && sent == []
    {
      this.alloc := alloc;
      this.paths := paths;
      this.plane := plane;
      written, sent := [], [];
    }

    ghost predicate Valid()
      reads this, alloc, paths, paths.Buffers(), plane, Parts(plane.sessions)
    {
      && alloc.Valid() && paths.Valid() && plane.Valid()
      && paths.Buffers() !! Parts(plane.sessions)
      && Outside(Parts(plane.sessions)) && Outside(paths.Buffers())
    }

    /** None of the router's own objects is a part of a session or of a path slice. */
    ghost predicate Outside(parts: set<object>) {
      && this !in parts && alloc !in parts && paths !in parts
      && plane !in parts && plane.store !in parts && plane.aead !in parts
    }

    /** Writes an inner packet to the device when its source is the session's own lease; `ok` is
        whether the device takes it. */
    method Egress(id: SessionId, packet: Bytes, ok: bool) returns (verdict: Egress)
      requires alloc.Valid()
      modifies this`written
      ensures verdict == Filter(alloc.State(), id, packet)
      ensures written == old(written) + if verdict == Forward && ok then [packet] else []
    {
      var leased := alloc.LeaseOf(id);
      if leased.None? {
        return NoLease;
      }
      var inner := ParseIPv4(packet);
      if inner.None? {
        return BadInner;
      }
      if inner.value.src != leased.value {
        return ReversePath;
      }
      if ok {
        written := written + [packet];
      }
      return Forward;
    }

    /** One packet of the return loop; `accepts` is whether a send to an endpoint succeeds. */
    method ReturnOne(packet: Bytes, now: P.Time, accepts: P.AddrPort -> bool) returns (v: Verdict)
      requires Valid()
      modifies this`sent, paths, paths.Buffers(), plane, Parts(plane.sessions), plane.aead
      ensures Valid() && alloc.State() == old(alloc.State())
      ensures var r := Route(plane.aead.enc, plane.store.keys, plane.capacity, alloc.State(), old(plane.State()),
                             old(plane.aead.vault), old(paths.State()), packet, now - paths.ttl);
              && v == r.verdict
              && plane.State() == r.cache && plane.aead.vault == r.vault && paths.State() == r.paths
      ensures sent == old(sent) + if v.SendTo? then Accepted(v.framed, v.dsts, accepts) else []
    {
      hide DataPlane.Valid, DataPlane.State, P.PathSet.Valid, P.PathSet.State, Allocator.Valid, RouteTo, ParseIPv4, Accepted;
      var to := Lessee(packet);
      hide Router.Valid, Router.Outside;
      if to.Err? {
        return to.error;
      }
      v := ReturnTo(to.value, packet, now, accepts);
    }

    /** The session that leases a packet's destination. */
    method Lessee(packet: Bytes) returns (r: Result<SessionId, Verdict>)
      requires alloc.Valid()
      ensures match ParseIPv4(packet)
              case None => r == Err(BadReturn)
              case Some(inner) =>
                r == if inner.dst in alloc.reverse then Ok(alloc.reverse[inner.dst]) else Err(UnknownDestination)
    {
      var inner := ParseIPv4(packet);
      if inner.None? {
        return Err(BadReturn);
      }
      var id := alloc.Lookup(inner.value.dst);
      return if id.None? then Err(UnknownDestination) else Ok(id.value);
    }

    method ReturnTo(id: SessionId, packet: Bytes, now: P.Time, accepts: P.AddrPort -> bool) returns (v: Verdict)
      requires Valid()
      modifies this`sent, paths, paths.Buffers(), plane, Parts(plane.sessions), plane.aead
      ensures Valid() && alloc.State() == old(alloc.State())
      ensures var r := RouteTo(plane.aead.enc, plane.store.keys, plane.capacity, old(plane.State()),
                               old(plane.aead.vault), old(paths.State()), id, packet, now - paths.ttl);
              && v == r.verdict
              && plane.State() == r.cache && plane.aead.vault == r.vault && paths.State() == r.paths
      ensures sent == old(sent) + if v.SendTo? then Accepted(v.framed, v.dsts, accepts) else []
    {
      hide Router.Valid, DataPlane.State, DataPlane.Valid, P.PathSet.State, P.PathSet.Valid, Allocator.State, Parts;
      hide Frame, Accepted, P.PruneState, P.FreshIn;
      var framed := FrameFor(id, packet);
      if framed.Err? {
        return FrameError(framed.error);
      }
      var dsts := FreshFor(id, now);
      SendAll(framed.value, dsts, accepts);
      return SendTo(id, framed.value, dsts);
    }

    method FrameFor(id: SessionId, packet: Bytes) returns (r: Result<Bytes, PlaneError>)
      requires Valid()
      modifies plane, Parts(plane.sessions), plane.aead
      ensures Valid() && fresh(Parts(plane.sessions) - old(Parts(plane.sessions)))
      ensures alloc.State() == old(alloc.State()) && sent == old(sent)
      ensures paths.State() == old(paths.State()) && paths.Buffers() == old(paths.Buffers())
      ensures var f := Frame(plane.aead.enc, plane.store.keys, plane.capacity, old(plane.State()), old(plane.aead.vault), id, packet);
              plane.State() == f.cache && plane.aead.vault == f.vault && r == f.result
    {
      hide DataPlane.Valid, DataPlane.State, P.PathSet.Valid, P.PathSet.State, Allocator.Valid, Frame;
      r := plane.FrameReturn(id, packet);
    }

    method FreshFor(id: SessionId, now: P.Time) returns (dsts: seq<P.AddrPort>)
      requires Valid()
      modifies paths, paths.Buffers()
      ensures Valid() && alloc.State() == old(alloc.State()) && sent == old(sent)
      ensures plane.State() == old(plane.State()) && plane.aead.vault == old(plane.aead.vault)
      ensures dsts == P.FreshIn(old(paths.State()), id, now - paths.ttl)
      ensures paths.State() == P.PruneState(old(paths.State()), id, now - paths.ttl)
    {
      hide DataPlane.Valid, DataPlane.State, P.PathSet.Valid, P.PathSet.State, Allocator.Valid, P.PruneState, P.FreshIn;
      dsts := paths.Fresh(id, now);
    }

    method SendAll(framed: Bytes, dsts: seq<P.AddrPort>, accepts: P.AddrPort -> bool)
      requires Valid()
      modifies this`sent
      ensures Valid() && alloc.State() == old(alloc.State())
      ensures plane.State() == old(plane.State()) && paths.State() == old(paths.State())
      ensures sent == old(sent) + Accepted(framed, dsts, accepts)
    {
      hide DataPlane.Valid, DataPlane.State, P.PathSet.Valid, P.PathSet.State, Allocator.Valid;
      for i := 0 to |dsts|
        invariant sent == old(sent) + Accepted(framed, dsts[..i], accepts)
      {
        assert dsts[..i + 1][..i] == dsts[..i];
        if accepts(dsts[i]) {
          sent := sent + [Sent(framed, dsts[i])];
        }
      }
      assert dsts[..|dsts|] == dsts;
    }
  }
}
