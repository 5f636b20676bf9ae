/** Tunnel-address leases: the usable pool of an IPv4 prefix, and an allocator whose forward and
    reverse maps stay inverse while every address is either free or leased. */
module Allocators {
  import opened Basics
  import opened Modular

  type Addr = U32

  // ---- The pool --------------------------------------------------------------------------------

  datatype Prefix = NotIPv4 | IPv4(addr: Addr, bits: nat)

  ghost predicate WellFormed(p: Prefix) {
    p.IPv4? ==> p.bits <= 32
  }

  function Pow2(n: nat): (r: nat)
    ensures r > 0
  {
    if n == 0 then 1 else 2 * Pow2(n - 1)
  }

  /** Number of addresses in a prefix of the given length. */
  function Size(bits: nat): (r: nat)
    requires bits <= 32
    ensures r > 0
  {
    Pow2(32 - bits)
  }

  /** The address with its host bits cleared. */
  function Masked(addr: Addr, bits: nat): (r: Addr)
    requires bits <= 32
    ensures r <= addr < r + Size(bits)
  {
    RemainderAtMost(addr, Size(bits));
    addr - addr % Size(bits)
  }

  /** The successor address; none after 255.255.255.255, and none after none. */
  function Next(a: Option<Addr>): Option<Addr> {
    if a.Some? && a.value + 1 < TWO_32 then Some(a.value + 1) else None
  }

  /** An address is in the prefix when it agrees with it on the leading bits. */
  predicate Contains(base: Addr, bits: nat, a: Option<Addr>)
    requires bits <= 32
  {
    a.Some? && a.value / Size(bits) == base / Size(bits)
  }

  lemma {:induction false} Pow2Product(m: nat, n: nat)
    ensures Pow2(m + n) == Pow2(m) * Pow2(n)
  {
    if m > 0 {
      Pow2Product(m - 1, n);
      assert Pow2(m + n) == 2 * Pow2(m - 1 + n);
      assert Pow2(m) * Pow2(n) == 2 * (Pow2(m - 1) * Pow2(n));
    }
  }

  lemma Pow2Of32()
    ensures Pow2(32) == TWO_32
  {
    assert Pow2(8) == 256;
    Pow2Product(8, 8);
    Pow2Product(16, 16);
  }

  /** The prefix is the run of `Size(bits)` addresses from its base, inside the 32-bit space. */
  lemma PrefixIsRange(addr: Addr, bits: nat, a: Addr)
    requires bits <= 32
    ensures Masked(addr, bits) + Size(bits) <= TWO_32
    ensures Contains(Masked(addr, bits), bits, Some(a)) <==> Masked(addr, bits) <= a < Masked(addr, bits) + Size(bits)
  {
    var s, q, base := Size(bits), addr / Size(bits), Masked(addr, bits);
    Split(addr, s);
    Unique(base, s, q, 0);
    Split(a, s);
    if base <= a < base + s {
      Unique(a, s, q, a - base);
    }
    Pow2Product(32 - bits, bits);
    Pow2Of32();
    BaseFits(q, s, Pow2(bits));
  }

  lemma ContainsExactly(addr: Addr, bits: nat, a: Option<Addr>)
    requires bits <= 32
    ensures var base := Masked(addr, bits);
            && base + Size(bits) <= TWO_32
            && (Contains(base, bits, a) <==> a.Some? && base <= a.value < base + Size(bits))
  {
    PrefixIsRange(addr, bits, if a.Some? then a.value else addr);
  }

  lemma BaseFits(q: nat, s: nat, n: nat)
    requires s > 0 && q * s < s * n
    ensures q * s + s <= s * n
  {
    Multiple(n - q, s);
    assert (n - q) * s == n * s - q * s;
  }

  /** The usable hosts of a prefix: all but the network address, the gateway's own and the broadcast. */
  function HostsOf(addr: Addr, bits: nat): (hs: seq<Addr>)
    requires bits <= 30
    ensures |hs| == Size(bits) - 3 > 0
    ensures forall i | 0 <= i < |hs| :: hs[i] == Masked(addr, bits) + 2 + i
  {
    PrefixIsRange(addr, bits, addr);
    SizeSteps(bits);
    seq(Size(bits) - 3, i requires 0 <= i < Size(bits) - 3 => Masked(addr, bits) + 2 + i)
  }

  lemma SizeSteps(bits: nat)
    requires bits <= 32
    ensures Size(bits) == 1 <==> bits == 32
    ensures Size(bits) == 2 <==> bits == 31
    ensures bits <= 30 <==> Size(bits) >= 4
  {
    if bits <= 30 {
      assert Pow2(32 - bits) == 2 * Pow2(31 - bits) == 4 * Pow2(30 - bits);
    }
  }

  // ---- Leases as a value -----------------------------------------------------------------------

  /** `free` is a stack whose top is its end. */
  datatype Leases = Leases(forward: map<SessionId, Addr>, reverse: map<Addr, SessionId>, free: seq<Addr>)

  function NoLeases(hosts: seq<Addr>): Leases {
    Leases(map[], map[], hosts)
  }

  function LeaseFor(l: Leases, id: SessionId): Option<Addr> {
    if id in l.forward then Some(l.forward[id])
    else if l.free == [] then None
    else Some(l.free[|l.free| - 1])
  }

  function AllocateIn(l: Leases, id: SessionId): Leases {
    if id in l.forward || l.free == [] then l
    else
      var top := |l.free| - 1;
      Leases(l.forward[id := l.free[top]], l.reverse[l.free[top] := id], l.free[..top])
  }

  lemma NoneLeavesAll(l: Leases, id: SessionId)
    ensures LeaseFor(l, id).None? ==> AllocateIn(l, id) == l
  {
  }

  function ReleaseIn(l: Leases, id: SessionId): Leases {
    if id !in l.forward then l
    else Leases(l.forward - {id}, l.reverse - {l.forward[id]}, l.free + [l.forward[id]])
  }

  /** The two maps are each other's inverse. */
  ghost predicate Inverse(l: Leases) {
    && (forall id | id in l.forward :: l.forward[id] in l.reverse && l.reverse[l.forward[id]] == id)
    && (forall a | a in l.reverse :: l.reverse[a] in l.forward && l.forward[l.reverse[a]] == a)
  }

  /** Free and leased addresses partition the pool, and no address is free twice. */
  ghost predicate Partition(pool: set<Addr>, l: Leases) {
    && Distinct(l.free)
    && (forall a | a in l.free :: a in pool && a !in l.reverse)
    && (forall a | a in l.reverse :: a in pool)
    && (forall a | a in pool :: a in l.free || a in l.reverse)
  }

  ghost predicate LeaseInv(pool: set<Addr>, l: Leases) {
    Inverse(l) && Partition(pool, l)
  }

  lemma AllocateKeeps(pool: set<Addr>, l: Leases, id: SessionId)
    requires LeaseInv(pool, l)
    ensures LeaseInv(pool, AllocateIn(l, id))
  {
    if id !in l.forward && l.free != [] {
      var top := |l.free| - 1;
      assert l.free == l.free[..top] + [l.free[top]];
      assert l.free[top] !in l.free[..top];
    }
  }

  lemma ReleaseKeeps(pool: set<Addr>, l: Leases, id: SessionId)
    requires LeaseInv(pool, l)
    ensures LeaseInv(pool, ReleaseIn(l, id))
  {
  }

  /** A lease taken and given back leaves the allocator exactly as it was, free stack included. */
  lemma ReleaseUndoesAllocate(pool: set<Addr>, l: Leases, id: SessionId)
    requires LeaseInv(pool, l) && id !in l.forward
    ensures ReleaseIn(AllocateIn(l, id), id) == l
  {
    if l.free != [] {
      var top := |l.free| - 1;
      var m := ReleaseIn(AllocateIn(l, id), id);
      assert l.free[top] in l.free && l.free[top] !in l.reverse;
      assert m.forward == l.forward;
      assert m.reverse == l.reverse;
      assert m.free == l.free[..top] + [l.free[top]] == l.free;
    }
  }

  /** Conservation: free and leased addresses always add up to the pool. */
  lemma LeasesAddUp(pool: set<Addr>, l: Leases)
    requires LeaseInv(pool, l)
    ensures |l.free| + |l.reverse| == |pool| && |l.forward| == |l.reverse|
  {
    DistinctCount(l.free);
    DisjointCount(pool, l);
    InverseCount(l.forward, l.reverse);
  }

  lemma DisjointCount(pool: set<Addr>, l: Leases)
    requires Partition(pool, l)
    ensures |Elements(l.free)| + |l.reverse| == |pool|
  {
    assert pool == Elements(l.free) + l.reverse.Keys;
    assert Elements(l.free) !! l.reverse.Keys;
  }

  lemma {:induction false} InverseCount(f: map<SessionId, Addr>, g: map<Addr, SessionId>)
    requires forall id | id in f :: f[id] in g && g[f[id]] == id
    requires forall a | a in g :: g[a] in f && f[g[a]] == a
    ensures |f| == |g|
    decreases |f|
  {
    if f == map[] {
      assert g == map[];
    } else {
      var id :| id in f;
      var f', g' := f - {id}, g - {f[id]};
      assert f'.Keys == f.Keys - {id} && g'.Keys == g.Keys - {f[id]};
      assert |f'| == |f| - 1 && |g'| == |g| - 1;
      InverseCount(f', g');
    }
  }

  /** A request fails exactly when every pool address is leased to somebody else. */
  lemma ExhaustedExactly(pool: set<Addr>, l: Leases, id: SessionId)
    requires LeaseInv(pool, l)
    ensures LeaseFor(l, id).None? <==> id !in l.forward && |l.forward| == |pool|
    ensures LeaseFor(l, id).Some? ==> LeaseFor(l, id).value in pool
  {
    LeasesAddUp(pool, l);
  }

  // ---- Every run -------------------------------------------------------------------------------

  datatype Op = Lease(id: SessionId) | Return(id: SessionId)

  function Run(hosts: seq<Addr>, ops: seq<Op>): Leases {
    if ops == [] then NoLeases(hosts)
    else
      var l := Run(hosts, ops[..|ops| - 1]);
      match ops[|ops| - 1]
      case Lease(id) => AllocateIn(l, id)
      case Return(id) => ReleaseIn(l, id)
  }

  /** After any sequence of requests and releases over a prefix: the maps are inverse, free and
      leased partition the usable hosts, and the numbers add up. */
  lemma {:induction false} RunInv(addr: Addr, bits: nat, ops: seq<Op>)
    requires bits <= 30
    ensures var hosts := HostsOf(addr, bits); LeaseInv(Elements(hosts), Run(hosts, ops))
  {
    var hosts := HostsOf(addr, bits);
    if ops != [] {
      RunInv(addr, bits, ops[..|ops| - 1]);
      var l := Run(hosts, ops[..|ops| - 1]);
      match ops[|ops| - 1]
      case Lease(id) => AllocateKeeps(Elements(hosts), l, id);
      case Return(id) => ReleaseKeeps(Elements(hosts), l, id);
    }
  }

  /** No two sessions ever hold the same address. */
  lemma NoSharedLease(pool: set<Addr>, l: Leases, id1: SessionId, id2: SessionId)
    requires LeaseInv(pool, l) && id1 in l.forward && id2 in l.forward && l.forward[id1] == l.forward[id2]
    ensures id1 == id2
  {
    assert l.reverse[l.forward[id1]] == id1;
  }

  /** The addresses of a fresh pool are handed out from its last down, one to each new session. */
  lemma LeasedInOrder(hosts: seq<Addr>, ids: seq<SessionId>, k: nat)
    requires k < |ids| <= |hosts| && Distinct(ids)
    ensures var l := Run(hosts, Requests(ids));
            && ids[k] in l.forward && l.forward[ids[k]] == hosts[|hosts| - 1 - k]
  {
    LeasesSoFar(hosts, ids);
  }

  /** After one request each from distinct sessions. */
  ghost predicate InOrder(hosts: seq<Addr>, ids: seq<SessionId>, l: Leases) {
    && |ids| <= |hosts| && l.free == hosts[..|hosts| - |ids|] && (forall id | id in l.forward :: id in ids)
    && (forall i | 0 <= i < |ids| :: ids[i] in l.forward && l.forward[ids[i]] == hosts[|hosts| - 1 - i])
  }

  function Requests(ids: seq<SessionId>): (ops: seq<Op>)
    ensures |ops| == |ids|
  {
    seq(|ids|, i requires 0 <= i < |ids| => Lease(ids[i]))
  }

  lemma {:induction false} LeasesSoFar(hosts: seq<Addr>, ids: seq<SessionId>)
    requires |ids| <= |hosts| && Distinct(ids)
    ensures InOrder(hosts, ids, Run(hosts, Requests(ids)))
  {
    if ids != [] {
      var front, id := ids[..|ids| - 1], ids[|ids| - 1];
      LeasesSoFar(hosts, front);
      var ops := Requests(ids);
      assert ops[..|ops| - 1] == Requests(front) && ops[|ops| - 1] == Lease(id);
      OrderStep(hosts, front, id, Run(hosts, Requests(front)));
      assert front + [id] == ids;
    }
  }

  lemma OrderStep(hosts: seq<Addr>, front: seq<SessionId>, id: SessionId, l: Leases)
    requires InOrder(hosts, front, l) && id !in front && |front| < |hosts|
    ensures InOrder(hosts, front + [id], AllocateIn(l, id))
  {
    var l', ids := AllocateIn(l, id), front + [id];
    assert id !in l.forward;
    assert l.free[|l.free| - 1] == hosts[|hosts| - 1 - |front|];
    forall i | 0 <= i < |ids| ensures ids[i] in l'.forward && l'.forward[ids[i]] == hosts[|hosts| - 1 - i] {
      if i < |front| {
        assert ids[i] == front[i] && front[i] in front;
      }
    }
  }

  // ---- The allocator ---------------------------------------------------------------------------

  /** Collects the usable hosts by walking the prefix from the gateway address. */
  method UsableHosts(pool: Prefix) returns (free: seq<Addr>)
    requires WellFormed(pool)
    ensures pool.NotIPv4? || pool.bits >= 31 ==> free == []
    ensures pool.IPv4? && pool.bits <= 30 ==> free == HostsOf(pool.addr, pool.bits)
  {
    hide Masked, Contains, Size;
    free := [];
    if pool.NotIPv4? {
      return;
    }
    var bits := pool.bits;
    var base := Masked(pool.addr, bits);
    ghost var size := Size(bits);
    SizeSteps(bits);
    ContainsExactly(pool.addr, bits, Some(base));
    var addr := Next(Some(base));
    while true
      invariant addr.Some? ==> addr.value == base + 1 + |free|
      invariant addr.None? ==> free == [] && size == 1
      invariant size >= 4 ==> |free| <= size - 3
      invariant size < 4 ==> free == []
      invariant forall i | 0 <= i < |free| :: free[i] == base + 2 + i
      decreases TWO_32 - |free|
    {
      addr := Next(addr);
      ContainsExactly(pool.addr, bits, addr);
      if !Contains(base, bits, addr) {
        break;
      }
      ContainsExactly(pool.addr, bits, Next(addr));
      if !Contains(base, bits, Next(addr)) {
        break;
      }
      free := free + [addr.value];
    }
  }

  class Allocator {
    ghost const pool: set<Addr>
    var forward: map<SessionId, Addr>
    var reverse: map<Addr, SessionId>
    var free: seq<Addr>

    ghost predicate Valid()
      reads this
    {
      LeaseInv(pool, State())
    }

    ghost function State(): Leases
      reads this
    {
      Leases(forward, reverse, free)
    }

    constructor (hosts: seq<Addr>)
      requires Distinct(hosts)
      ensures Valid() && State() == NoLeases(hosts) && pool == Elements(hosts)
    {
      pool := Elements(hosts);
      forward := map[];
      reverse := map[];
      free := hosts;
    }

    /** An allocator over the usable hosts of `prefix`; refused when there are none. */
    static method New(prefix: Prefix) returns (r: Result<Allocator, string>)
      requires WellFormed(prefix)
      ensures r.Ok? <==> prefix.IPv4? && prefix.bits <= 30
      ensures r.Ok? ==> fresh(r.value) && r.value.Valid()
      ensures r.Ok? ==> r.value.State() == NoLeases(HostsOf(prefix.addr, prefix.bits))
    {
      var hosts := UsableHosts(prefix);
      if |hosts| == 0 {
        return Err("invalid tunnel ip pool: must be an ipv4 prefix with at least one usable host address");
      }
      var a := new Allocator(hosts);
      return Ok(a);
    }

    method Allocate(id: SessionId) returns (r: Option<Addr>)
      requires Valid()
      modifies this
      ensures Valid()
      ensures r == LeaseFor(old(State()), id) && State() == AllocateIn(old(State()), id)
    {
      AllocateKeeps(pool, State(), id);
      if id in forward {
        return Some(forward[id]);
      }
      if |free| == 0 {
        return None;
      }
      var addr := free[|free| - 1];
      free := free[..|free| - 1];
      forward := forward[id := addr];
      reverse := reverse[addr := id];
      return Some(addr);
    }

    method LeaseOf(id: SessionId) returns (r: Option<Addr>)
      requires Valid()
      ensures r.Some? ==> id in forward && forward[id] == r.value && reverse[r.value] == id && r.value in pool
      ensures r.None? ==> id !in forward && id !in reverse.Values
    {
      r := if id in forward then Some(forward[id]) else None;
    }

    method Lookup(addr: Addr) returns (r: Option<SessionId>)
      requires Valid()
      ensures r == if addr in reverse then Some(reverse[addr]) else None
      ensures r.Some? ==> r.value in forward && forward[r.value] == addr
      ensures r.None? ==> forall id | id in forward :: forward[id] != addr
    {
      r := if addr in reverse then Some(reverse[addr]) else None;
    }

    method Release(id: SessionId)
      requires Valid()
      modifies this
      ensures Valid() && State() == ReleaseIn(old(State()), id)
    {
      ReleaseKeeps(pool, State(), id);
      if id !in forward {
        return;
      }
      var addr := forward[id];
      forward := forward - {id};
      reverse := reverse - {addr};
      free := free + [addr];
    }
  }
}
