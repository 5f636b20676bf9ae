/** The Internet checksum (section 1 of RFC 1071), as a loop over 32-bit arithmetic that wraps. */
module Checksums {
  import opened Basics
  import opened BigEndian
  import Modular

  const ONES: nat := 0xffff

  function Word(hi: Byte, lo: Byte): U16 {
    var h: int := hi;
    256 * h + lo
  }

  /** The sum of the first `k` big-endian 16-bit words. */
  function PairSum(d: Bytes, k: nat): nat
    requires 2 * k <= |d|
  {
    if k == 0 then 0 else PairSum(d, k - 1) + Word(d[2 * k - 2], d[2 * k - 1])
  }

  /** All words; a last odd byte stands for a word with a zero low byte. */
  function WordSum(d: Bytes): nat {
    PairSum(d, |d| / 2) + if |d| % 2 == 1 then Word(d[|d| - 1], 0) else 0
  }

  /** End-around carry until 16 bits are left. */
  function Fold(n: nat): nat {
    if n < TWO_16 then n else Fold(n % TWO_16 + n / TWO_16)
  }

  /** What is left of a sum in 32 bits. */
  function Wrap(n: nat): U32 {
    n % TWO_32
  }

  function Csum(d: Bytes): U16 {
    FoldMeaning(Wrap(WordSum(d)));
    ONES - Fold(Wrap(WordSum(d)))
  }

  lemma WrapAdd(a: nat, b: nat)
    ensures Wrap(Wrap(a) + b) == Wrap(a + b)
  {
    Modular.AddRemainder(a, b, TWO_32);
  }

  lemma PairSumStep(d: Bytes, k: nat)
    requires 2 * k + 2 <= |d|
    ensures PairSum(d, k + 1) == PairSum(d, k) + Word(d[2 * k], d[2 * k + 1])
  {
  }

  lemma CarryKeeps(n: nat)
    ensures (n % TWO_16 + n / TWO_16) % ONES == n % ONES
  {
    Modular.AddMultiple(n % TWO_16 + n / TWO_16, n / TWO_16, ONES);
    assert n == n % TWO_16 + n / TWO_16 + n / TWO_16 * ONES;
  }

  /** Folding keeps the value modulo 65535, and only zero folds to zero. These two facts pin it. */
  lemma {:induction false} FoldMeaning(n: nat)
    ensures Fold(n) < TWO_16 && Fold(n) % ONES == n % ONES && (Fold(n) == 0 <==> n == 0)
    decreases n
  {
    if n >= TWO_16 {
      CarryKeeps(n);
      FoldMeaning(n % TWO_16 + n / TWO_16);
    }
  }

  lemma WordSumIs(d: Bytes)
    ensures WordSum(d) == PairSum(d, |d| / 2) + if |d| % 2 == 1 then Word(d[|d| - 1], 0) else 0
  {
  }

  /** Addition of a word in 32 bits. */
  function Add32(sum: U32, word: U16): U32 {
    Wrap(sum + word)
  }

  lemma AddsWord(total: nat, word: U16)
    ensures Add32(Wrap(total), word) == Wrap(total + word)
  {
    WrapAdd(total, word);
  }

  /** The word at `at`. */
  function WordAt(data: array<Byte>, at: nat): U16
    requires at + 2 <= data.Length
    reads data
  {
    Word(data[at], data[at + 1])
  }

  lemma NoWords(d: Bytes)
    ensures Wrap(PairSum(d, 0)) == 0
  {
  }

  lemma NextWord(data: array<Byte>, off: nat, len: nat, k: nat)
    requires off + len <= data.Length && 2 * k + 2 <= len
    ensures var d := data[off..off + len]; PairSum(d, k + 1) == PairSum(d, k) + WordAt(data, off + 2 * k)
  {
    var d := data[off..off + len];
    PairSumStep(d, k);
    assert d[2 * k] == data[off + 2 * k] && d[2 * k + 1] == data[off + 2 * k + 1];
  }

  /** The 32-bit running sum of the first `pairs` words of `len` bytes at `off`. */
  method SumPairs(data: array<Byte>, off: nat, ghost len: nat, pairs: nat) returns (sum: U32)
    requires off + len <= data.Length && 2 * pairs <= len
    ensures sum == Wrap(PairSum(data[off..off + len], pairs))
  {
    hide Wrap, PairSum, Add32, WordAt;
    NoWords(data[off..off + len]);
    sum := 0;
    for k := 0 to pairs
      invariant sum == Wrap(PairSum(data[off..off + len], k))
    {
      NextWord(data, off, len, k);
      AddsWord(PairSum(data[off..off + len], k), WordAt(data, off + 2 * k));
      sum := Add32(sum, WordAt(data, off + 2 * k));
    }
  }

  /** The 32-bit running sum of `len` bytes at `off`. */
  method Sum32(data: array<Byte>, off: nat, len: nat) returns (sum: U32)
    requires off + len <= data.Length
    ensures sum == Wrap(WordSum(data[off..off + len]))
  {
    ghost var d := data[off..off + len];
    hide Wrap, PairSum, Word, WordSum, Add32;
    sum := SumPairs(data, off, len, len / 2);
    WordSumIs(d);
    if len % 2 == 1 {
      var last := data[off + len - 1];
      assert d[len - 1] == last;
      AddsWord(PairSum(d, len / 2), Word(last, 0));
      sum := Add32(sum, Word(last, 0));
    }
  }

  method InetCsum(data: array<Byte>, off: nat, len: nat) returns (r: U16)
    requires off + len <= data.Length
    ensures r == Csum(data[off..off + len])
  {
    var sum: U32 := Sum32(data, off, len);
    ghost var total: U32 := sum;
    while sum / TWO_16 != 0
      invariant Fold(sum) == Fold(total)
      decreases sum
    {
      sum := sum % TWO_16 + sum / TWO_16;
    }
    r := ONES - sum;
  }

  // ---- A checksum in place verifies ------------------------------------------------------------

  /** `d` with the two bytes at `p` set. */
  function WithWord(d: Bytes, p: nat, w: U16): Bytes
    requires p + 2 <= |d|
  {
    d[..p] + PutU16(w) + d[p + 2..]
  }

  lemma {:induction false} PairSumSet(d: Bytes, p: nat, w: U16, k: nat)
    requires p % 2 == 0 && p + 2 <= |d| && d[p] == 0 && d[p + 1] == 0 && 2 * k <= |d|
    ensures PairSum(WithWord(d, p, w), k) == PairSum(d, k) + if p < 2 * k then w else 0
  {
    if k > 0 {
      PairSumSet(d, p, w, k - 1);
      TwoBytes(w);
      var d' := WithWord(d, p, w);
      var j := 2 * k - 2;
      assert j != p ==> d'[j] == d[j] && d'[j + 1] == d[j + 1];
      assert j == p ==> d'[j] == PutU16(w)[0] && d'[j + 1] == PutU16(w)[1];
    }
  }

  lemma TwoBytes(w: U16)
    ensures PutU16(w) == [w / 256, w % 256]
  {
    assert Encode(w, 2) == Encode(w / 256, 1) + [w % 256];
    assert Encode(w / 256, 1) == Encode(w / 256 / 256, 0) + [w / 256 % 256];
  }

  lemma WordSumSet(d: Bytes, p: nat, w: U16)
    requires p % 2 == 0 && p + 2 <= |d| && d[p] == 0 && d[p + 1] == 0
    ensures |WithWord(d, p, w)| == |d| && WordSum(WithWord(d, p, w)) == WordSum(d) + w
  {
    PairSumSet(d, p, w, |d| / 2);
    assert |d| % 2 == 1 ==> WithWord(d, p, w)[|d| - 1] == d[|d| - 1];
  }

  lemma FoldsToOnes(n: nat)
    requires n > 0 && n % ONES == 0
    ensures Fold(n) == ONES
  {
    FoldMeaning(n);
  }

  /** The checksum rounds the 32-bit sum up to a multiple of 65535, which still fits 32 bits: the
      largest 32-bit number is such a multiple. */
  lemma RoundsUp(s: U32)
    ensures var c := ONES - Fold(s); c >= 0 && (s + c) % ONES == 0 && 0 < s + c < TWO_32
  {
    FoldMeaning(s);
    var f, c := Fold(s), ONES - Fold(s);
    Modular.AddRemainder(s, c, ONES);
    Modular.AddRemainder(f, c, ONES);
    assert (s + c) % ONES == 0;
    var q := (s + c) / ONES;
    assert s + c == q * ONES;
    assert s > 0 ==> f > 0;
  }

  /** A receiver that sums the data with its checksum in place gets zero, however long the data. */
  lemma ChecksumVerifies(d: Bytes, p: nat)
    requires p % 2 == 0 && p + 2 <= |d| && d[p] == 0 && d[p + 1] == 0
    ensures Csum(WithWord(d, p, Csum(d))) == 0
  {
    hide Fold, WordSum, WithWord, Wrap;
    var s, c := Wrap(WordSum(d)), Csum(d);
    RoundsUp(s);
    WordSumSet(d, p, c);
    WrapAdd(WordSum(d), c);
    SmallWrap(s + c);
    FoldsToOnes(s + c);
  }

  lemma SmallWrap(n: nat)
    requires n < TWO_32
    ensures Wrap(n) == n
  {
  }

  /** All ones in place of a zero checksum (RFC 768) also sum to zero, exactly when the 32-bit sum is
      not at its very top, where they wrap it around. */
  lemma AllOnesVerifies(d: Bytes, p: nat)
    requires p % 2 == 0 && p + 2 <= |d| && d[p] == 0 && d[p + 1] == 0 && Csum(d) == 0
    ensures Csum(WithWord(d, p, ONES)) == 0 <==> Wrap(WordSum(d)) != TWO_32 - 1
  {
    hide Fold, WordSum, WithWord, Wrap;
    var s := Wrap(WordSum(d));
    RoundsUp(s);
    WordSumSet(d, p, ONES);
    WrapAdd(WordSum(d), ONES);
    OnesOnTop(s);
  }

  lemma OnesOnTop(s: U32)
    requires s % ONES == 0 && s > 0
    ensures Fold(Wrap(s + ONES)) == ONES <==> s != TWO_32 - 1
  {
    Modular.AddMultiple(s, 1, ONES);
    hide Fold;
    if s == TWO_32 - 1 {
      assert Wrap(s + ONES) == ONES - 1;
      SmallFold(ONES - 1);
    } else {
      NotOnTop(s);
      assert Wrap(s + ONES) == s + ONES;
      FoldsToOnes(s + ONES);
    }
  }

  /** Below the largest 32-bit number there is room for one more 65535. */
  lemma NotOnTop(s: U32)
    requires s % ONES == 0 && s != TWO_32 - 1
    ensures s + ONES < TWO_32
  {
    assert s == s / ONES * ONES;
  }

  lemma SmallFold(n: nat)
    requires n < TWO_16
    ensures Fold(n) == n
  {
  }

  lemma {:induction false} PairSumBound(d: Bytes, k: nat)
    requires 2 * k <= |d|
    ensures PairSum(d, k) <= k * ONES
  {
    if k > 0 {
      PairSumBound(d, k - 1);
      assert k * ONES == (k - 1) * ONES + ONES;
    }
  }

  /** That takes at least this many bytes, counting the two of the checksum. */
  const SHORTEST_WRAP: nat := 131076

  /** Shorter data never reaches the top, because its zero checksum adds nothing. */
  lemma ShortNeverWraps(d: Bytes, p: nat)
    requires |d| < SHORTEST_WRAP && p % 2 == 0 && p + 2 <= |d| && d[p] == 0 && d[p + 1] == 0
    ensures WordSum(d) < TWO_32 - 1 && Wrap(WordSum(d)) != TWO_32 - 1
  {
    WordSumSet(d, p, ONES);
    WordSumBound(WithWord(d, p, ONES));
    hide WordSum;
  }

  lemma WordSumBound(d: Bytes)
    requires |d| < SHORTEST_WRAP
    ensures WordSum(d) < TWO_32 - 1 + ONES
  {
    var k := |d| / 2;
    PairSumBound(d, k);
    WordSumIs(d);
    hide PairSum, WordSum;
    assert k <= 65537;
  }

  lemma {:induction false} OnesSum(d: Bytes, k: nat)
    requires 2 * k <= |d| && 1 <= k
    requires d[0] == 0 && d[1] == 0 && forall i | 2 <= i < |d| :: d[i] == 255
    ensures PairSum(d, k) == (k - 1) * ONES
  {
    PairSumStep(d, k - 1);
    if k > 1 {
      OnesSum(d, k - 1);
    }
  }

  /** The top is reached: for that many bytes, all set but the checksum, the substitution fails. */
  lemma LongestFails()
    ensures var d := [0, 0] + seq(SHORTEST_WRAP - 2, _ => 255);
            Csum(d) == 0 && Csum(WithWord(d, 0, ONES)) != 0
  {
    var d: Bytes := [0, 0] + seq(SHORTEST_WRAP - 2, _ => 255);
    OnesSum(d, |d| / 2);
    assert WordSum(d) == 65537 * ONES == TWO_32 - 1;
    RoundsUp(TWO_32 - 1);
    assert Csum(d) == 0;
    AllOnesVerifies(d, 0);
  }
}
