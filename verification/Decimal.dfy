/** Decimal printing and parsing of signed 64-bit integers, and splitting text at a separator. */
module Decimal {
  import opened Basics
  import opened BigEndian

  const ZERO: Byte := 48
  const PLUS: Byte := 43
  const MINUS: Byte := 45

  // ---- Numbers ---------------------------------------------------------------------------------

  predicate IsDigit(c: Byte) {
    48 <= c <= 57
  }

  predicate AllDigits(s: Bytes) {
    forall i | 0 <= i < |s| :: IsDigit(s[i])
  }

  function Digits(n: nat): (s: Bytes)
    ensures s != []
  {
    if n < 10 then [ZERO + n] else Digits(n / 10) + [ZERO + n % 10]
  }

  function Abs(n: int): nat {
    if n < 0 then 0 - n else n
  }

  function Format(n: I64): Bytes {
    if n < 0 then [MINUS] + Digits(Abs(n)) else Digits(n)
  }

  function Magnitude(s: Bytes): nat
    requires AllDigits(s)
  {
    if s == [] then 0 else 10 * Magnitude(s[..|s| - 1]) + (s[|s| - 1] - ZERO)
  }

  /** An optional sign, then at least one digit and nothing else, within the signed 64-bit range. */
  function Parse(s: Bytes): Option<I64> {
    var signed := s != [] && (s[0] == PLUS || s[0] == MINUS);
    var body := if signed then s[1..] else s;
    if body == [] || !AllDigits(body) then None
    else
      var m := Magnitude(body);
      if signed && s[0] == MINUS then (if m > TWO_63 then None else Some(0 - m))
      else if m >= TWO_63 then None else Some(m)
  }

  lemma {:induction false} DigitsRead(n: nat)
    ensures AllDigits(Digits(n)) && Magnitude(Digits(n)) == n
  {
    if n >= 10 {
      DigitsRead(n / 10);
      assert Digits(n)[..|Digits(n)| - 1] == Digits(n / 10);
    }
  }

  /** Every signed 64-bit integer is read back as printed. */
  lemma ParseFormat(n: I64)
    ensures Parse(Format(n)) == Some(n)
  {
    DigitsRead(Abs(n));
    if n < 0 {
      assert Format(n)[1..] == Digits(Abs(n));
    } else {
      assert IsDigit(Format(n)[0]);
    }
  }

  /** Digits as one writes them: '0' to '9', no leading zero, tens before units. */
  lemma {:induction false} DigitsShape(n: nat)
    ensures AllDigits(Digits(n)) && (Digits(n)[0] == 48 <==> n == 0) && (|Digits(n)| == 1 <==> n < 10)
    ensures Digits(n)[|Digits(n)| - 1] == 48 + n % 10
    ensures n >= 10 ==> Digits(n)[..|Digits(n)| - 1] == Digits(n / 10)
  {
    if n >= 10 {
      DigitsShape(n / 10);
    }
  }

  lemma FormatShape(n: I64)
    ensures n >= 0 ==> Format(n) == Digits(n)
    ensures n < 0 ==> Format(n) == [45] + Digits(0 - (n as int))
  {
  }

  /** What a text is worth, digit by digit. */
  lemma MagnitudeIs(s: Bytes, c: Byte)
    requires AllDigits(s) && IsDigit(c)
    ensures AllDigits(s + [c]) && Magnitude(s + [c]) == 10 * Magnitude(s) + (c - 48)
  {
    assert (s + [c])[..|s|] == s;
  }

  /** A text is read as `n` exactly when it is digits worth `n`, with an optional '+', or '-' and digits
      worth `-n`. */
  lemma ParseExactly(s: Bytes, n: I64)
    ensures Parse(s) == Some(n) <==>
            || (s != [] && AllDigits(s) && Magnitude(s) == n)
            || (|s| > 1 && AllDigits(s[1..]) && s[0] == 43 && Magnitude(s[1..]) == n)
            || (|s| > 1 && AllDigits(s[1..]) && s[0] == 45 && Magnitude(s[1..]) == 0 - (n as int))
  {
    if s != [] && (s[0] == 43 || s[0] == 45) {
      assert !IsDigit(s[0]);
    }
  }

  lemma FormatAlphabet(n: I64, c: Byte)
    requires c in Format(n)
    ensures c == MINUS || IsDigit(c)
  {
    DigitsRead(Abs(n));
  }

  // ---- Text ------------------------------------------------------------------------------------

  /** The parts around the first separator, if there is one. */
  function Cut(s: Bytes, sep: Byte): Option<(Bytes, Bytes)> {
    if s == [] then None
    else if s[0] == sep then Some(([], s[1..]))
    else match Cut(s[1..], sep)
         case None => None
         case Some((a, b)) => Some(([s[0]] + a, b))
  }

  /** All the parts between separators: one more than there are separators. */
  function Split(s: Bytes, sep: Byte): (parts: seq<Bytes>)
    decreases |s|
  {
    match Cut(s, sep)
    case None => [s]
    case Some((a, b)) => CutShorter(s, sep); [a] + Split(b, sep)
  }

  lemma {:induction false} CutShorter(s: Bytes, sep: Byte)
    ensures Cut(s, sep).Some? ==> |Cut(s, sep).value.1| < |s|
  {
    if s != [] && s[0] != sep {
      CutShorter(s[1..], sep);
    }
  }

  /** Cutting finds exactly the first separator. */
  lemma {:induction false} CutExactly(s: Bytes, sep: Byte, a: Bytes, b: Bytes)
    ensures Cut(s, sep) == Some((a, b)) <==> s == a + [sep] + b && sep !in a
  {
    if s != [] {
      if s[0] == sep {
        assert s == [] + [sep] + s[1..];
        if s == a + [sep] + b && sep !in a {
          assert s[1..] == b;
        }
      } else if a != [] {
        CutExactly(s[1..], sep, a[1..], b);
        assert a == [a[0]] + a[1..];
        if s == a + [sep] + b && sep !in a {
          assert s[1..] == a[1..] + [sep] + b;
        }
        if Cut(s, sep) == Some((a, b)) {
          assert s == [s[0]] + s[1..];
          assert Cut(s[1..], sep).Some?;
          var (a', b') := Cut(s[1..], sep).value;
          assert a == [s[0]] + a';
          assert a' == a[1..];
          assert a + [sep] + b == [s[0]] + (a[1..] + [sep] + b);
        }
      } else {
        assert (a + [sep] + b)[0] == sep;
      }
    }
  }

  lemma {:induction false} CutNone(s: Bytes, sep: Byte)
    ensures Cut(s, sep).None? <==> sep !in s
  {
    if s != [] && s[0] != sep {
      CutNone(s[1..], sep);
      assert s == [s[0]] + s[1..];
    }
  }

  /** Three fields joined by a separator none of them contains come apart as the same three. */
  lemma SplitThree(a: Bytes, b: Bytes, c: Bytes, sep: Byte)
    requires sep !in a && sep !in b && sep !in c
    ensures Split(a + [sep] + b + [sep] + c, sep) == [a, b, c]
  {
    var s := a + [sep] + b + [sep] + c;
    var rest := b + [sep] + c;
    assert s == a + [sep] + rest;
    CutExactly(s, sep, a, rest);
    CutExactly(rest, sep, b, c);
    CutNone(c, sep);
    assert Split(c, sep) == [c];
    assert Split(rest, sep) == [b] + Split(c, sep);
  }
}
