/** Vocabulary shared by every component: bytes, fixed-width integers, identities and results. */
module Basics {

  type Byte = x: int | 0 <= x < 256
  type Bytes = seq<Byte>

  const TWO_16: nat := 0x1_0000
  const TWO_32: nat := 0x1_0000_0000
  const TWO_64: nat := 0x1_0000_0000_0000_0000

  type U16 = x: int | 0 <= x < TWO_16
  type U32 = x: int | 0 <= x < TWO_32
  type U64 = x: int | 0 <= x < TWO_64

  datatype Option<+T> = None | Some(value: T)

  datatype Result<+T, +E> = Ok(value: T) | Err(error: E)

  const SESSION_ID_SIZE: nat := 16

  const ZERO_ID: Bytes := [0, 0, 0, 0, 0, 0, 0, 0, 0, 0, 0, 0, 0, 0, 0, 0]

  /** A session id is any 16 bytes; the all-zero id is a value of the type and is
      rejected only where the program rejects it. */
  type SessionId = s: Bytes | |s| == SESSION_ID_SIZE witness ZERO_ID

  datatype PacketId = PacketId(session: SessionId, number: U64)

  predicate IsZero(id: SessionId) {
    forall i | 0 <= i < |id| :: id[i] == 0
  }

  predicate ValidId(id: PacketId) {
    !IsZero(id.session) && id.number > 0
  }

  // ---- Sequences without repeats ---------------------------------------------------------------

  ghost predicate Distinct<T>(s: seq<T>) {
    forall i, j | 0 <= i < j < |s| :: s[i] != s[j]
  }

  ghost function Elements<T>(s: seq<T>): set<T> {
    set x | x in s
  }

  lemma {:induction false} DistinctCount<T>(s: seq<T>)
    requires Distinct(s)
    ensures |Elements(s)| == |s|
  {
    if s == [] {
      assert Elements(s) == {};
    } else {
      var front, x := s[..|s| - 1], s[|s| - 1];
      DistinctCount(front);
      assert s == front + [x] && x !in front;
      assert Elements(s) == Elements(front) + {x};
    }
  }
}
