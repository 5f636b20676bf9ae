/** Big-endian integers, buffers filled at offsets, and two's-complement 64-bit timestamps. */
module BigEndian {
  import opened Basics

  function Pow256(k: nat): nat {
    if k == 0 then 1 else 256 * Pow256(k - 1)
  }

  lemma PowersOf256()
    ensures Pow256(2) == TWO_16 && Pow256(8) == TWO_64
  {
    assert Pow256(4) == TWO_32;
    assert Pow256(6) == 0x1_0000_0000_0000;
  }

  /** The low `k` bytes of `n`, most significant first. */
  function Encode(n: nat, k: nat): (b: Bytes)
    ensures |b| == k
  {
    if k == 0 then [] else Encode(n / 256, k - 1) + [n % 256]
  }

  function Decode(b: Bytes): nat {
    if b == [] then 0 else 256 * Decode(b[..|b| - 1]) + b[|b| - 1]
  }

  lemma {:induction false} DecodeEncode(n: nat, k: nat)
    requires n < Pow256(k)
    ensures Decode(Encode(n, k)) == n
  {
    if k > 0 {
      DecodeEncode(n / 256, k - 1);
      assert Encode(n, k)[..k - 1] == Encode(n / 256, k - 1);
    }
  }

  lemma {:induction false} EncodeDecode(b: Bytes)
    ensures Decode(b) < Pow256(|b|) && Encode(Decode(b), |b|) == b
  {
    if b != [] {
      EncodeDecode(b[..|b| - 1]);
      assert Decode(b) / 256 == Decode(b[..|b| - 1]);
      assert b == b[..|b| - 1] + [b[|b| - 1]];
    }
  }

  lemma EncodeInjective(m: nat, n: nat, k: nat)
    requires m < Pow256(k) && n < Pow256(k) && Encode(m, k) == Encode(n, k)
    ensures m == n
  {
    DecodeEncode(m, k);
    DecodeEncode(n, k);
  }

  function PutU64(n: U64): (b: Bytes)
    ensures |b| == 8
  {
    Encode(n, 8)
  }

  function GetU64(b: Bytes): (n: U64)
    requires |b| == 8
  {
    EncodeDecode(b);
    PowersOf256();
    Decode(b)
  }

  lemma U64RoundTrip(n: U64)
    ensures GetU64(PutU64(n)) == n
  {
    PowersOf256();
    DecodeEncode(n, 8);
  }

  lemma U64Bytes(b: Bytes)
    requires |b| == 8
    ensures PutU64(GetU64(b)) == b
  {
    EncodeDecode(b);
  }

  function PutU16(n: U16): (b: Bytes)
    ensures |b| == 2
  {
    Encode(n, 2)
  }

  function GetU16(b: Bytes): (n: U16)
    requires |b| == 2
  {
    EncodeDecode(b);
    PowersOf256();
    Decode(b)
  }

  lemma U16RoundTrip(n: U16)
    ensures GetU16(PutU16(n)) == n
  {
    PowersOf256();
    DecodeEncode(n, 2);
  }

  lemma U16Bytes(b: Bytes)
    requires |b| == 2
    ensures PutU16(GetU16(b)) == b
  {
    EncodeDecode(b);
  }

  // ---- Place values ----------------------------------------------------------------------------

  /** Sixteen bits: the high byte comes first. */
  lemma U16Value(b: Bytes)
    requires |b| == 2
    ensures GetU16(b) == 256 * (b[0] as int) + b[1]
  {
    hide Decode;
    assert b[..1][..0] == [];
    DecodeStep(b);
    DecodeStep(b[..1]);
    DecodeNothing();
  }

  lemma DecodeStep(b: Bytes)
    requires b != []
    ensures Decode(b) == 256 * Decode(b[..|b| - 1]) + b[|b| - 1]
  {
  }

  /** Thirty-two bits, most significant byte first. */
  lemma FourBytesValue(b: Bytes)
    requires |b| == 4
    ensures Decode(b) == 0x100_0000 * (b[0] as int) + 0x1_0000 * (b[1] as int) + 0x100 * (b[2] as int) + b[3]
  {
    hide Decode;
    assert b[..3][..2] == b[..2] && b[..2][..1] == b[..1] && b[..1][..0] == [];
    DecodeStep(b);
    DecodeStep(b[..3]);
    DecodeStep(b[..2]);
    DecodeStep(b[..1]);
    DecodeNothing();
  }

  lemma DecodeNothing()
    ensures Decode([]) == 0
  {
  }

  /** Sixty-four bits, most significant byte first. */
  lemma U64Value(b: Bytes)
    requires |b| == 8
    ensures GetU64(b)
         == 0x100_0000_0000_0000 * (b[0] as int) + 0x1_0000_0000_0000 * (b[1] as int) + 0x100_0000_0000 * (b[2] as int) + 0x1_0000_0000 * (b[3] as int)
          + 0x100_0000 * (b[4] as int) + 0x1_0000 * (b[5] as int) + 0x100 * (b[6] as int) + b[7]
  {
    FourBytesValue(b[..4]);
    hide Decode;
    assert b[..7][..6] == b[..6] && b[..6][..5] == b[..5] && b[..5][..4] == b[..4];
    DecodeStep(b);
    DecodeStep(b[..7]);
    DecodeStep(b[..6]);
    DecodeStep(b[..5]);
  }

  // ---- Signed 64-bit values carried as unsigned ones -------------------------------------------

  const TWO_63: nat := 0x8000_0000_0000_0000
  type I64 = x: int | -0x8000_0000_0000_0000 <= x < 0x8000_0000_0000_0000

  function ToUnsigned(t: I64): U64 {
    if t < 0 then t + TWO_64 else t
  }

  function ToSigned(n: U64): I64 {
    if n >= TWO_63 then n - TWO_64 else n
  }

  /** Two's complement: what is carried differs from the value by a multiple of 2^64. */
  lemma TwosComplement(t: I64)
    ensures ToUnsigned(t) == t || ToUnsigned(t) == t + 0x1_0000_0000_0000_0000
    ensures t >= 0 ==> ToUnsigned(t) == t
  {
  }

  // ---- Buffers ---------------------------------------------------------------------------------

  /** Writes `src` into `out` at `off`; every other byte keeps its value. */
  method CopyInto(out: array<Byte>, off: nat, src: Bytes)
    requires off + |src| <= out.Length
    modifies out
    ensures forall k | 0 <= k < out.Length ::
              out[k] == if off <= k < off + |src| then src[k - off] else old(out[k])
  {
    for i := 0 to |src|
      invariant forall k | 0 <= k < out.Length ::
                  out[k] == if off <= k < off + i then src[k - off] else old(out[k])
    {
      out[off + i] := src[i];
    }
  }
}
