/** Unpadded base64url (section 5 of RFC 4648), encoding and the library's lenient decoding. */
module Base64Url {
  import opened Basics

  type Sextet = x: int | 0 <= x < 64

  const CR: Byte := 13
  const LF: Byte := 10

  /** A-Z, a-z, 0-9, '-', '_'. */
  function Letter(v: Sextet): Byte {
    if v < 26 then 65 + v else if v < 52 then 71 + v else if v < 62 then v - 4 else if v == 62 then 45 else 95
  }

  function Value(c: Byte): Option<Sextet> {
    if 65 <= c <= 90 then Some(c - 65)
    else if 97 <= c <= 122 then Some(c - 71)
    else if 48 <= c <= 57 then Some(c + 4)
    else if c == 45 then Some(62)
    else if c == 95 then Some(63)
    else None
  }

  // Three bytes as four groups of six bits, and back.

  function Sextet0(b0: Byte): Sextet { b0 / 4 }

  function Sextet1(b0: Byte, b1: Byte): Sextet { b0 % 4 * 16 + b1 / 16 }

  function Sextet2(b1: Byte, b2: Byte): Sextet { b1 % 16 * 4 + b2 / 64 }

  function Sextet3(b2: Byte): Sextet { b2 % 64 }

  function Byte0(v0: Sextet, v1: Sextet): Byte { v0 * 4 + v1 / 16 }

  function Byte1(v1: Sextet, v2: Sextet): Byte { v1 % 16 * 16 + v2 / 4 }

  function Byte2(v2: Sextet, v3: Sextet): Byte { v2 % 4 * 64 + v3 }

  function Encode(b: Bytes): Bytes {
    if b == [] then []
    else if |b| == 1 then [Letter(Sextet0(b[0])), Letter(Sextet1(b[0], 0))]
    else if |b| == 2 then [Letter(Sextet0(b[0])), Letter(Sextet1(b[0], b[1])), Letter(Sextet2(b[1], 0))]
    else
      [Letter(Sextet0(b[0])), Letter(Sextet1(b[0], b[1])), Letter(Sextet2(b[1], b[2])), Letter(Sextet3(b[2]))]
      + Encode(b[3..])
  }

  /** Line breaks are skipped wherever they stand. */
  function Significant(s: Bytes): Bytes {
    if s == [] then []
    else (if s[0] == CR || s[0] == LF then [] else [s[0]]) + Significant(s[1..])
  }

  /** Groups of four letters; a last group of two or three gives one or two bytes, and its spare bits
      are not looked at. */
  function DecodeGroups(s: Bytes): Option<Bytes> {
    if s == [] then Some([])
    else if |s| == 1 then None
    else
      var v0, v1 := Value(s[0]), Value(s[1]);
      if v0.None? || v1.None? then None
      else if |s| == 2 then Some([Byte0(v0.value, v1.value)])
      else
        var v2 := Value(s[2]);
        if v2.None? then None
        else if |s| == 3 then Some([Byte0(v0.value, v1.value), Byte1(v1.value, v2.value)])
        else
          var v3 := Value(s[3]);
          if v3.None? then None
          else
            match DecodeGroups(s[4..])
            case None => None
            case Some(rest) =>
              Some([Byte0(v0.value, v1.value), Byte1(v1.value, v2.value), Byte2(v2.value, v3.value)] + rest)
  }

  function Decode(s: Bytes): Option<Bytes> {
    DecodeGroups(Significant(s))
  }

  predicate InAlphabet(s: Bytes) {
    forall i | 0 <= i < |s| :: Value(s[i]).Some?
  }

  lemma ValueOfLetter(v: Sextet)
    ensures Value(Letter(v)) == Some(v)
  {
  }

  /** Six bits at a time and eight bits at a time carve up the same 24. */
  lemma Regroup(b0: Byte, b1: Byte, b2: Byte)
    ensures Byte0(Sextet0(b0), Sextet1(b0, b1)) == b0
    ensures Byte1(Sextet1(b0, b1), Sextet2(b1, b2)) == b1
    ensures Byte2(Sextet2(b1, b2), Sextet3(b2)) == b2
    ensures Value(Letter(Sextet0(b0))) == Some(Sextet0(b0)) && Value(Letter(Sextet1(b0, b1))) == Some(Sextet1(b0, b1))
    ensures Value(Letter(Sextet2(b1, b2))) == Some(Sextet2(b1, b2)) && Value(Letter(Sextet3(b2))) == Some(Sextet3(b2))
  {
    ValueOfLetter(Sextet0(b0));
    ValueOfLetter(Sextet1(b0, b1));
    ValueOfLetter(Sextet2(b1, b2));
    ValueOfLetter(Sextet3(b2));
    hide Letter, Value;
  }

  lemma {:induction false} EncodedAlphabet(b: Bytes)
    ensures InAlphabet(Encode(b)) && (b != [] ==> Encode(b) != [])
  {
    if |b| >= 3 {
      EncodedAlphabet(b[3..]);
    }
  }

  lemma {:induction false} NothingSkipped(s: Bytes)
    requires InAlphabet(s)
    ensures Significant(s) == s
  {
    if s != [] {
      assert Value(s[0]).Some?;
      NothingSkipped(s[1..]);
    }
  }

  lemma {:induction false} GroupsRoundTrip(b: Bytes)
    ensures DecodeGroups(Encode(b)) == Some(b)
  {
    hide Letter, Value, Sextet0, Sextet1, Sextet2, Sextet3, Byte0, Byte1, Byte2;
    if |b| == 1 {
      Regroup(b[0], 0, 0);
      assert b == [b[0]];
    } else if |b| == 2 {
      Regroup(b[0], b[1], 0);
      assert b == [b[0], b[1]];
    } else if |b| >= 3 {
      Regroup(b[0], b[1], b[2]);
      GroupsRoundTrip(b[3..]);
      assert Encode(b)[4..] == Encode(b[3..]);
      assert b == [b[0], b[1], b[2]] + b[3..];
    }
  }

  /** Decoding undoes encoding, on every byte string. */
  lemma DecodeEncode(b: Bytes)
    ensures Decode(Encode(b)) == Some(b)
  {
    EncodedAlphabet(b);
    NothingSkipped(Encode(b));
    GroupsRoundTrip(b);
  }

  lemma EncodeInjective(a: Bytes, b: Bytes)
    requires Encode(a) == Encode(b)
    ensures a == b
  {
    DecodeEncode(a);
    DecodeEncode(b);
  }

  // ---- The code itself -------------------------------------------------------------------------

  /** The alphabet of table 2 of RFC 4648. */
  lemma LetterIs(v: Sextet)
    ensures v < 26 ==> Letter(v) == 'A' as int + v
    ensures 26 <= v < 52 ==> Letter(v) == 'a' as int + (v - 26)
    ensures 52 <= v < 62 ==> Letter(v) == '0' as int + (v - 52)
    ensures v == 62 ==> Letter(v) == '-' as int
    ensures v == 63 ==> Letter(v) == '_' as int
  {
  }

  /** Three bytes at a time, as one 24-bit number in four digits of base 64; a last one or two bytes, filled
      up with zero bits, in the first two or three. */
  lemma EncodesGroups(b: Bytes) returns (v: seq<Sextet>)
    requires b != []
    ensures |v| == 4
    ensures 0x40000 * (v[0] as int) + 0x1000 * (v[1] as int) + 64 * (v[2] as int) + v[3]
         == 0x10000 * (b[0] as int) + 0x100 * (if |b| > 1 then b[1] as int else 0) + if |b| > 2 then b[2] else 0
    ensures var letters := if |b| > 2 then 4 else |b| + 1;
            && |Encode(b)| >= letters
            && (forall i | 0 <= i < letters :: Encode(b)[i] == Letter(v[i]))
            && Encode(b)[letters..] == if |b| > 2 then Encode(b[3..]) else []
  {
    hide Letter;
    var b1, b2 := if |b| > 1 then b[1] else 0, if |b| > 2 then b[2] else 0;
    v := [Sextet0(b[0]), Sextet1(b[0], b1), Sextet2(b1, b2), Sextet3(b2)];
  }

  lemma SignificantStep(s: Bytes)
    requires s != []
    ensures Significant(s) == (if s[0] == 13 || s[0] == 10 then [] else [s[0]]) + Significant(s[1..])
  {
  }

  /** Line breaks do not matter. */
  lemma {:induction false} LineBreaksIgnored(a: Bytes, c: Byte, b: Bytes)
    requires c == 10 || c == 13
    ensures Significant(a + [c] + b) == Significant(a + b)
    ensures Decode(a + [c] + b) == Decode(a + b)
  {
    hide Significant;
    var s := a + [c] + b;
    SignificantStep(s);
    if a == [] {
      assert s[1..] == b && a + b == b;
    } else {
      LineBreaksIgnored(a[1..], c, b);
      SignificantStep(a + b);
      assert s[1..] == a[1..] + [c] + b && (a + b)[1..] == a[1..] + b;
    }
  }

  /** Without its line breaks a text decodes exactly when it is made of letters and no single one is left
      over. */
  lemma {:induction false} GroupsDecode(s: Bytes)
    ensures DecodeGroups(s).Some? <==> InAlphabet(s) && |s| % 4 != 1
  {
    hide Value, Byte0, Byte1, Byte2;
    if |s| >= 4 {
      GroupsDecode(s[4..]);
      assert s == [s[0], s[1], s[2], s[3]] + s[4..];
      assert forall i | 0 <= i < |s| - 4 :: s[4..][i] == s[i + 4];
      if InAlphabet(s[4..]) && Value(s[0]).Some? && Value(s[1]).Some? && Value(s[2]).Some? && Value(s[3]).Some? {
        forall i | 0 <= i < |s| ensures Value(s[i]).Some? {
          assert i >= 4 ==> s[i] == s[4..][i - 4];
        }
      }
    }
  }

  /** The spare bits of a last group of two or three letters are not looked at. */
  lemma LastGroup(v0: Sextet, v1: Sextet, v2: Sextet)
    ensures DecodeGroups([Letter(v0), Letter(v1)]) == Some([v0 * 4 + v1 / 16])
    ensures DecodeGroups([Letter(v0), Letter(v1), Letter(v2)]) == Some([v0 * 4 + v1 / 16, v1 % 16 * 16 + v2 / 4])
  {
    ValueOfLetter(v0);
    ValueOfLetter(v1);
    ValueOfLetter(v2);
    hide Letter, Value;
  }
}
