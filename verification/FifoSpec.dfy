/** First-in first-out duplicate suppression as a bounded queue of distinct identities. */
module FifoSpec {
  import opened Basics

  type PathName = string

  datatype Decision = Invalid | FirstCopy | Duplicate

  datatype Outcome = Outcome(decision: Decision, id: PacketId, path: PathName, firstPath: PathName, copies: nat)

  datatype Record = Record(firstPath: PathName, copies: nat)

  /** `queue` is oldest first; `seen` describes exactly its members. */
  datatype Fifo = Fifo(capacity: nat, queue: seq<PacketId>, seen: map<PacketId, Record>)

  function Empty(capacity: nat): Fifo {
    Fifo(capacity, [], map[])
  }

  ghost predicate FifoInv(f: Fifo) {
    && 0 < f.capacity && |f.queue| <= f.capacity
    && (forall i, j | 0 <= i < j < |f.queue| :: f.queue[i] != f.queue[j])
    && (forall id | id in f.queue :: id in f.seen)
    && (forall id | id in f.seen :: id in f.queue)
  }

  predicate Usable(id: PacketId, path: PathName) {
    ValidId(id) && path != ""
  }

  /** Drops the oldest member when the queue is full. */
  function Evict(f: Fifo): Fifo {
    if |f.queue| < f.capacity || f.queue == [] then f
    else f.(queue := f.queue[1..], seen := f.seen - {f.queue[0]})
  }

  function Insert(f: Fifo, id: PacketId, path: PathName): Fifo {
    f.(queue := f.queue + [id], seen := f.seen[id := Record(path, 1)])
  }

  function Observe(f: Fifo, id: PacketId, path: PathName): Fifo {
    if !Usable(id, path) then f
    else if id in f.seen then f.(seen := f.seen[id := f.seen[id].(copies := f.seen[id].copies + 1)])
    else Insert(Evict(f), id, path)
  }

  function Result(f: Fifo, id: PacketId, path: PathName): Outcome {
    if !Usable(id, path) then Outcome(Invalid, id, path, "", 0)
    else if id in f.seen then Outcome(Duplicate, id, path, f.seen[id].firstPath, f.seen[id].copies + 1)
    else Outcome(FirstCopy, id, path, path, 1)
  }

  lemma EvictKeeps(f: Fifo)
    requires FifoInv(f)
    ensures FifoInv(Evict(f)) && |Evict(f).queue| < f.capacity
    ensures forall id | id in Evict(f).seen :: id in f.seen
  {
    if |f.queue| == f.capacity {
      assert f.queue == [f.queue[0]] + f.queue[1..];
    }
  }

  lemma InsertKeeps(f: Fifo, id: PacketId, path: PathName)
    requires FifoInv(f) && |f.queue| < f.capacity && id !in f.seen
    ensures FifoInv(Insert(f, id, path))
  {
  }

  lemma ObserveKeeps(f: Fifo, id: PacketId, path: PathName)
    requires FifoInv(f)
    ensures FifoInv(Observe(f, id, path)) && Observe(f, id, path).capacity == f.capacity
  {
    if Usable(id, path) && id !in f.seen {
      EvictKeeps(f);
      InsertKeeps(Evict(f), id, path);
    }
  }

  /** The map has one record per queued identity. */
  lemma QueueCount(f: Fifo)
    requires FifoInv(f)
    ensures |f.seen| == |f.queue|
  {
    DistinctCount(f.queue);
    assert f.seen.Keys == Elements(f.queue);
  }

  // ---- Every run -------------------------------------------------------------------------------

  datatype Copy = Copy(id: PacketId, path: PathName)

  function Run(capacity: nat, copies: seq<Copy>): Fifo {
    if copies == [] then Empty(capacity)
    else
      var c := copies[|copies| - 1];
      Observe(Run(capacity, copies[..|copies| - 1]), c.id, c.path)
  }

  function OutcomeAt(capacity: nat, copies: seq<Copy>, i: nat): Outcome
    requires i < |copies|
  {
    Result(Run(capacity, copies[..i]), copies[i].id, copies[i].path)
  }

  /** The identities reported as first copies at positions `lo..hi`, in order. */
  function Firsts(capacity: nat, copies: seq<Copy>, lo: nat, hi: nat): seq<PacketId>
    requires lo <= hi <= |copies|
  {
    if lo == hi then []
    else
      var rest := Firsts(capacity, copies, lo, hi - 1);
      if OutcomeAt(capacity, copies, hi - 1).decision == FirstCopy then rest + [copies[hi - 1].id] else rest
  }

  lemma {:induction false} RunInv(capacity: nat, copies: seq<Copy>)
    requires capacity > 0
    ensures FifoInv(Run(capacity, copies)) && Run(capacity, copies).capacity == capacity
  {
    if copies != [] {
      RunInv(capacity, copies[..|copies| - 1]);
      var c := copies[|copies| - 1];
      ObserveKeeps(Run(capacity, copies[..|copies| - 1]), c.id, c.path);
    }
  }

  ghost function Others(ids: seq<PacketId>, id: PacketId): set<PacketId> {
    Elements(ids) - {id}
  }

  /** `q` ends with `id` followed by `tail`. */
  ghost predicate EndsWith(q: seq<PacketId>, id: PacketId, tail: seq<PacketId>) {
    |tail| < |q| && q[|q| - |tail| - 1] == id && q[|q| - |tail|..] == tail
  }

  lemma DistinctOthers(tail: seq<PacketId>, id: PacketId)
    requires forall i, j | 0 <= i < j < |tail| :: tail[i] != tail[j]
    requires id !in tail
    ensures |Others(tail, id)| == |tail|
  {
    DistinctCount(tail);
    assert Others(tail, id) == Elements(tail);
  }

  /** When the oldest member `id` of a full queue makes room for `x`, `capacity` others followed it. */
  lemma OldestLeaves(f: Fifo, id: PacketId, tail: seq<PacketId>, x: PacketId)
    requires FifoInv(f) && f.queue == [id] + tail && |f.queue| == f.capacity && x !in f.seen
    ensures |Others(tail + [x], id)| == f.capacity
  {
    assert x !in f.queue && id == f.queue[0];
    assert forall i | 0 <= i < |tail| :: tail[i] == f.queue[i + 1];
    assert id !in tail && x != id && x !in tail;
    DistinctOthers(tail + [x], id);
  }

  lemma StaysQueued(q: seq<PacketId>, id: PacketId, tail: seq<PacketId>, x: PacketId)
    requires EndsWith(q, id, tail)
    ensures EndsWith(q + [x], id, tail + [x])
    ensures |tail| + 1 < |q| ==> EndsWith(q[1..], id, tail)
  {
  }

  /** While `id` stays queued, what follows it is what was first-copied since; it leaves only when
      that has grown to `capacity` other identities. */
  lemma AppendStep(f: Fifo, id: PacketId, tail: seq<PacketId>, x: PacketId, path: PathName)
    requires FifoInv(f) && EndsWith(f.queue, id, tail) && x !in f.seen
    ensures EndsWith(Insert(Evict(f), x, path).queue, id, tail + [x]) || |Others(tail + [x], id)| >= f.capacity
  {
    if |tail| + 1 == |f.queue| == f.capacity {
      assert f.queue == [id] + tail;
      OldestLeaves(f, id, tail, x);
    } else {
      StaysQueued(f.queue, id, tail, x);
      StaysQueued(Evict(f).queue, id, tail, x);
    }
  }

  lemma FollowStep(f: Fifo, id: PacketId, tail: seq<PacketId>, c: Copy)
    requires FifoInv(f) && (EndsWith(f.queue, id, tail) || |Others(tail, id)| >= f.capacity)
    ensures var tail' := if Result(f, c.id, c.path).decision == FirstCopy then tail + [c.id] else tail;
            EndsWith(Observe(f, c.id, c.path).queue, id, tail') || |Others(tail', id)| >= f.capacity
  {
    if Result(f, c.id, c.path).decision == FirstCopy {
      if EndsWith(f.queue, id, tail) {
        AppendStep(f, id, tail, c.id, c.path);
      } else {
        OthersGrow(tail, c.id, id);
      }
    }
  }

  lemma RunStep(capacity: nat, copies: seq<Copy>, t: nat)
    requires 0 < t <= |copies|
    ensures Run(capacity, copies[..t]) == Observe(Run(capacity, copies[..t - 1]), copies[t - 1].id, copies[t - 1].path)
  {
    assert copies[..t][..t - 1] == copies[..t - 1];
  }

  lemma InsertEnds(f: Fifo, id: PacketId, path: PathName)
    ensures EndsWith(Insert(f, id, path).queue, id, [])
  {
  }

  lemma {:induction false} FollowId(capacity: nat, copies: seq<Copy>, i: nat, t: nat)
    requires capacity > 0 && i < t <= |copies|
    requires OutcomeAt(capacity, copies, i).decision == FirstCopy
    ensures var id, tail := copies[i].id, Firsts(capacity, copies, i + 1, t);
            EndsWith(Run(capacity, copies[..t]).queue, id, tail) || |Others(tail, id)| >= capacity
  {
    hide Run, FifoInv, EndsWith, Others;
    var f, c := Run(capacity, copies[..t - 1]), copies[t - 1];
    RunStep(capacity, copies, t);
    RunInv(capacity, copies[..t - 1]);
    if t == i + 1 {
      hide Evict;
      InsertEnds(Evict(f), c.id, c.path);
    } else {
      hide Observe, Result;
      FollowId(capacity, copies, i, t - 1);
      FollowStep(f, copies[i].id, Firsts(capacity, copies, i + 1, t - 1), c);
    }
  }

  lemma OthersGrow(tail: seq<PacketId>, x: PacketId, id: PacketId)
    ensures |Others(tail, id)| <= |Others(tail + [x], id)|
  {
    assert Others(tail + [x], id) == Others(tail, id) + ({x} - {id});
    CardMonotone(Others(tail, id), Others(tail + [x], id));
  }

  lemma CardMonotone<T>(a: set<T>, b: set<T>)
    requires a <= b
    ensures |a| <= |b|
  {
    assert b == a + (b - a);
  }

  /** In every run, two first-copy decisions for one identity are separated by first copies of at
      least `capacity` other identities. */
  lemma Separation(capacity: nat, copies: seq<Copy>, i: nat, j: nat)
    requires capacity > 0 && i < j < |copies| && copies[i].id == copies[j].id
    requires OutcomeAt(capacity, copies, i).decision == FirstCopy
    requires OutcomeAt(capacity, copies, j).decision == FirstCopy
    ensures |Others(Firsts(capacity, copies, i + 1, j), copies[i].id)| >= capacity
  {
    FollowId(capacity, copies, i, j);
    RunInv(capacity, copies[..j]);
    var q := Run(capacity, copies[..j]).queue;
    assert copies[i].id !in q;
  }

  /** How many usable copies of `id` arrived at positions `lo..`. */
  function CountFrom(copies: seq<Copy>, id: PacketId, lo: nat): nat
    requires lo <= |copies|
  {
    if lo == |copies| then 0
    else
      var c := copies[|copies| - 1];
      CountFrom(copies[..|copies| - 1], id, lo) + if c.id == id && Usable(c.id, c.path) then 1 else 0
  }

  lemma OutcomeOfPrefix(capacity: nat, copies: seq<Copy>, k: nat)
    requires k < |copies| - 1
    ensures OutcomeAt(capacity, copies[..|copies| - 1], k) == OutcomeAt(capacity, copies, k)
  {
    assert copies[..|copies| - 1][..k] == copies[..k];
  }

  /** What one copy does to the record of `id`: starts it, counts itself in, or leaves it alone. */
  lemma ObservedRecord(f: Fifo, c: Copy, id: PacketId)
    requires FifoInv(f) && id in Observe(f, c.id, c.path).seen
    ensures var seen := Observe(f, c.id, c.path).seen;
            if c.id == id && Result(f, c.id, c.path).decision == FirstCopy
            then Usable(c.id, c.path) && seen[id] == Record(c.path, 1)
            else id in f.seen && seen[id] == f.seen[id].(copies := f.seen[id].copies + if c.id == id && Usable(c.id, c.path) then 1 else 0)
  {
    EvictKeeps(f);
  }

  /** The record of a resident identity names the path of its current first copy and counts the
      copies since then exactly. */
  lemma {:induction false} ResidentRecord(capacity: nat, copies: seq<Copy>, id: PacketId) returns (i: nat)
    requires capacity > 0 && id in Run(capacity, copies).seen
    ensures i < |copies| && copies[i].id == id && OutcomeAt(capacity, copies, i).decision == FirstCopy
    ensures forall k | i < k < |copies| && copies[k].id == id :: OutcomeAt(capacity, copies, k).decision != FirstCopy
    ensures Run(capacity, copies).seen[id] == Record(copies[i].path, CountFrom(copies, id, i))
  {
    hide FifoInv, Observe, Result, Evict;
    var front, last := copies[..|copies| - 1], |copies| - 1;
    var f, c := Run(capacity, front), copies[last];
    RunInv(capacity, front);
    ObservedRecord(f, c, id);
    if c.id == id && OutcomeAt(capacity, copies, last).decision == FirstCopy {
      i := last;
      assert CountFrom(front, id, last) == 0;
    } else {
      i := ResidentRecord(capacity, front, id);
      hide Run;
      OutcomeOfPrefix(capacity, copies, i);
      forall k | i < k < |copies| && copies[k].id == id
        ensures OutcomeAt(capacity, copies, k).decision != FirstCopy
      {
        if k < last { OutcomeOfPrefix(capacity, copies, k); }
      }
    }
  }

  // ---- Exactly when a copy is a duplicate ------------------------------------------------------

  /** While fewer than `capacity` first copies followed that of `id`, it is queued just ahead of them;
      after that it is gone. */
  ghost predicate Tracks(f: Fifo, id: PacketId, tail: seq<PacketId>) {
    (|tail| < f.capacity ==> EndsWith(f.queue, id, tail)) && (|tail| >= f.capacity ==> id !in f.seen)
  }

  lemma TracksInsert(f: Fifo, id: PacketId, tail: seq<PacketId>, x: PacketId, path: PathName)
    requires FifoInv(f) && Tracks(f, id, tail) && x !in f.seen && x != id
    ensures Tracks(Insert(Evict(f), x, path), id, tail + [x])
  {
    if |tail| + 1 == f.capacity {
      assert |f.queue| == f.capacity && f.queue[0] == id;
    } else if |tail| < f.capacity {
      StaysQueued(f.queue, id, tail, x);
      StaysQueued(Evict(f).queue, id, tail, x);
    }
  }

  lemma TracksObserve(f: Fifo, id: PacketId, tail: seq<PacketId>, c: Copy)
    requires FifoInv(f) && Tracks(f, id, tail) && (Result(f, c.id, c.path).decision == FirstCopy ==> c.id != id)
    ensures Tracks(Observe(f, c.id, c.path), id, if Result(f, c.id, c.path).decision == FirstCopy then tail + [c.id] else tail)
  {
    if Result(f, c.id, c.path).decision == FirstCopy {
      TracksInsert(f, id, tail, c.id, c.path);
    }
  }

  lemma TracksFirst(f: Fifo, id: PacketId, path: PathName)
    requires FifoInv(f)
    ensures Tracks(Insert(Evict(f), id, path), id, [])
  {
    InsertEnds(Evict(f), id, path);
  }

  lemma {:induction false} RunTracks(capacity: nat, copies: seq<Copy>, i: nat, t: nat)
    requires capacity > 0 && i < t <= |copies| && OutcomeAt(capacity, copies, i).decision == FirstCopy
    requires forall k | i < k < t && copies[k].id == copies[i].id :: OutcomeAt(capacity, copies, k).decision != FirstCopy
    ensures Tracks(Run(capacity, copies[..t]), copies[i].id, Firsts(capacity, copies, i + 1, t))
  {
    hide Run, FifoInv, Tracks;
    var f, c := Run(capacity, copies[..t - 1]), copies[t - 1];
    RunStep(capacity, copies, t);
    RunInv(capacity, copies[..t - 1]);
    if t == i + 1 {
      hide Evict;
      TracksFirst(f, c.id, c.path);
    } else {
      hide Observe, Result;
      RunTracks(capacity, copies, i, t - 1);
      TracksObserve(f, copies[i].id, Firsts(capacity, copies, i + 1, t - 1), c);
    }
  }

  /** In every run, after the latest first copy of an identity: it is remembered exactly as long as fewer
      than `capacity` first copies have followed. */
  lemma RememberedExactly(capacity: nat, copies: seq<Copy>, i: nat, t: nat)
    requires capacity > 0 && i < t <= |copies| && OutcomeAt(capacity, copies, i).decision == FirstCopy
    requires forall k | i < k < t && copies[k].id == copies[i].id :: OutcomeAt(capacity, copies, k).decision != FirstCopy
    ensures copies[i].id in Run(capacity, copies[..t]).seen <==> |Firsts(capacity, copies, i + 1, t)| < capacity
  {
    hide Run, Firsts;
    RunTracks(capacity, copies, i, t);
    RunInv(capacity, copies[..t]);
    var q := Run(capacity, copies[..t]).queue;
    if |Firsts(capacity, copies, i + 1, t)| < capacity {
      assert copies[i].id in q;
    }
  }

  /** What is reported of each copy: unusable ones are invalid; a usable one of which nothing is remembered
      is a first copy, numbered 1 on its own path; any other is a duplicate that names the path of the
      latest first copy, `i`, and its own place in the count from there. */
  lemma OutcomeExactly(capacity: nat, copies: seq<Copy>, j: nat) returns (i: nat)
    requires capacity > 0 && j < |copies|
    ensures var o, c := OutcomeAt(capacity, copies, j), copies[j];
            && o.id == c.id && o.path == c.path
            && (o.decision == Invalid <==> !Usable(c.id, c.path)) && (o.decision == Invalid ==> o.firstPath == "" && o.copies == 0)
            && (o.decision == FirstCopy <==> Usable(c.id, c.path) && c.id !in Run(capacity, copies[..j]).seen)
            && (o.decision == FirstCopy ==> o.firstPath == c.path && o.copies == 1)
            && (o.decision == Duplicate ==>
                  && i < j && copies[i].id == c.id && OutcomeAt(capacity, copies, i).decision == FirstCopy
                  && (forall k | i < k < j && copies[k].id == c.id :: OutcomeAt(capacity, copies, k).decision != FirstCopy)
                  && o.firstPath == copies[i].path && o.copies == 1 + CountFrom(copies[..j], c.id, i))
  {
    hide Run;
    i := 0;
    if OutcomeAt(capacity, copies, j).decision == Duplicate {
      var front := copies[..j];
      i := ResidentRecord(capacity, front, copies[j].id);
      forall k | 0 <= k < j ensures OutcomeAt(capacity, front, k) == OutcomeAt(capacity, copies, k) {
        assert front[..k] == copies[..k];
      }
    }
  }
}
