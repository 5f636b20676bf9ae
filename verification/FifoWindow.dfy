/** The FIFO window: a fixed ring buffer of identities and a map of records, updated in place. */
module FifoWindows {
  import opened Basics
  import opened Modular
  import Spec = FifoSpec

  /** The ring slot `i` places after `head`. */
  function Slot(head: nat, i: nat, cap: nat): (s: nat)
    requires cap > 0
    ensures s < cap
  {
    (head + i) % cap
  }

  /** The `count` live entries of the ring, oldest first. */
  ghost function Live(ring: seq<PacketId>, head: nat, count: nat): seq<PacketId>
    requires head < |ring| && count <= |ring|
  {
    seq(count, i requires 0 <= i < count => ring[Slot(head, i, |ring|)])
  }

  lemma SlotsDiffer(head: nat, i: nat, j: nat, cap: nat)
    requires i < j < cap
    ensures Slot(head, i, cap) != Slot(head, j, cap)
  {
    SameRemainder(head + i, head + j, cap);
    Unique(j - i, cap, 0, j - i);
  }

  lemma SlotsShift(head: nat, i: nat, cap: nat)
    requires cap > 0
    ensures Slot(Slot(head, 1, cap), i, cap) == Slot(head, i + 1, cap)
  {
    AddRemainder(head + 1, i, cap);
  }

  lemma PushLive(ring: seq<PacketId>, head: nat, count: nat, id: PacketId)
    requires head < |ring| && count < |ring|
    ensures Live(ring[Slot(head, count, |ring|) := id], head, count + 1) == Live(ring, head, count) + [id]
  {
    var ring' := ring[Slot(head, count, |ring|) := id];
    forall i | 0 <= i < count ensures Live(ring', head, count + 1)[i] == Live(ring, head, count)[i] {
      SlotsDiffer(head, i, count, |ring|);
    }
  }

  lemma PopLive(ring: seq<PacketId>, head: nat, count: nat)
    requires head < |ring| && 0 < count <= |ring|
    ensures Live(ring, head, count)[0] == ring[head]
    ensures Live(ring, Slot(head, 1, |ring|), count - 1) == Live(ring, head, count)[1..]
  {
    Unique(head, |ring|, 0, head);
    var head' := Slot(head, 1, |ring|);
    var after, before := Live(ring, head', count - 1), Live(ring, head, count)[1..];
    forall i | 0 <= i < count - 1 ensures after[i] == before[i] {
      SlotsShift(head, i, |ring|);
    }
  }

  class Window {
    const capacity: nat
    const ring: array<PacketId>
    var seen: map<PacketId, Spec.Record>
    var head: nat
    var count: nat

    ghost predicate Shape()
      reads this
    {
      0 < capacity == ring.Length && head < capacity && count <= capacity
    }

    ghost predicate Valid()
      reads this, ring
    {
      Shape() && Spec.FifoInv(State())
    }

    ghost function State(): Spec.Fifo
      reads this, ring
      requires Shape()
    {
      Spec.Fifo(capacity, Live(ring[..], head, count), seen)
    }

    constructor (size: int)
      requires size > 0
      ensures Valid() && fresh(ring) && State() == Spec.Empty(size)
    {
      capacity := size;
      ring := new PacketId[size](_ => PacketId(ZERO_ID, 0));
      seen := map[];
      head, count := 0, 0;
    }

    /** Refines the bounded queue: same outcome, same contents. */
    method Observe(id: PacketId, path: Spec.PathName) returns (r: Spec.Outcome)
      requires Valid()
      modifies this, ring
      ensures Valid()
      ensures r == Spec.Result(old(State()), id, path) && State() == Spec.Observe(old(State()), id, path)
    {
      Spec.ObserveKeeps(State(), id, path);
      if !ValidId(id) || path == "" {
        return Spec.Outcome(Spec.Invalid, id, path, "", 0);
      }
      if id in seen {
        var existing := seen[id];
        existing := existing.(copies := existing.copies + 1);
        seen := seen[id := existing];
        return Spec.Outcome(Spec.Duplicate, id, path, existing.firstPath, existing.copies);
      }
      EvictIfFull();
      seen := seen[id := Spec.Record(path, 1)];
      PushId(id);
      return Spec.Outcome(Spec.FirstCopy, id, path, path, 1);
    }

    method EvictIfFull()
      requires Valid()
      modifies this
      ensures Shape() && count < capacity && State() == Spec.Evict(old(State()))
    {
      if count < capacity {
        return;
      }
      PopLive(ring[..], head, count);
      var oldest := ring[head];
      seen := seen - {oldest};
      head := Slot(head, 1, capacity);
      count := count - 1;
    }

    method PushId(id: PacketId)
      requires Shape() && count < capacity
      modifies this`count, ring
      ensures Shape() && State() == old(State()).(queue := old(State()).queue + [id])
    {
      PushLive(ring[..], head, count, id);
      var tail := Slot(head, count, capacity);
      ghost var before := ring[..];
      ring[tail] := id;
      assert ring[..] == before[tail := id];
      count := count + 1;
    }

    /** Number of identities currently remembered. */
    method Len() returns (n: nat)
      requires Valid()
      ensures n == |State().queue| == |seen| && n <= capacity
    {
      n := |seen|;
      Spec.QueueCount(State());
    }
  }
}
