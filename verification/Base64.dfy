/**
 Base 64 without padding (sections 3.2, 4 and 5 of RFC 4648), as the Go library encodes and decodes it:
 the decoder skips line breaks and does not look at the unused bits of the last character.
 */
module Base64 {
  import opened Wrappers

  type Byte = x: int | 0 <= x < 256
  type Digit = x: int | 0 <= x < 64

  /** The standard alphabet and the URL-safe one differ in their last two characters. */
  datatype Alphabet = Alphabet(c62: char, c63: char) {
    predicate Valid() {
      c62 != c63 && IsSymbol(c62) && IsSymbol(c63)
    }
  }

  const STD := Alphabet('+', '/')
  const URL := Alphabet('-', '_')

  predicate IsSymbol(c: char) {
    !('A' <= c <= 'Z') && !('a' <= c <= 'z') && !('0' <= c <= '9') && !IsLineBreak(c)
  }

  predicate IsLineBreak(c: char) {
    c == '\r' || c == '\n'
  }

  function CharOf(alphabet: Alphabet, d: Digit): char {
    if d < 26 then 'A' + d as char
    else if d < 52 then 'a' + (d - 26) as char
    else if d < 62 then '0' + (d - 52) as char
    else if d == 62 then alphabet.c62
    else alphabet.c63
  }

  function DigitOf(alphabet: Alphabet, c: char): Option<Digit> {
    if 'A' <= c <= 'Z' then Some((c - 'A') as int)
    else if 'a' <= c <= 'z' then Some((c - 'a') as int + 26)
    else if '0' <= c <= '9' then Some((c - '0') as int + 52)
    else if c == alphabet.c62 then Some(62)
    else if c == alphabet.c63 then Some(63)
    else None
  }

  lemma CharsAreDigits(alphabet: Alphabet, d: Digit)
    requires alphabet.Valid()
    ensures DigitOf(alphabet, CharOf(alphabet, d)) == Some(d) && !IsLineBreak(CharOf(alphabet, d))
  {
  }

  lemma DigitsAreChars(alphabet: Alphabet, c: char)
    requires alphabet.Valid() && DigitOf(alphabet, c).Some?
    ensures CharOf(alphabet, DigitOf(alphabet, c).value) == c && !IsLineBreak(c)
  {
  }

  // ----- Digits and bytes -----

  // The four digits of three bytes, and the three bytes of four digits.

  function Digit0(a: Byte): Digit { a / 4 }
  function Digit1(a: Byte, b: Byte): Digit { a % 4 * 16 + b / 16 }
  function Digit2(b: Byte, c: Byte): Digit { b % 16 * 4 + c / 64 }
  function Digit3(c: Byte): Digit { c % 64 }
  function Byte0(w: Digit, x: Digit): Byte { w * 4 + x / 16 }
  function Byte1(x: Digit, y: Digit): Byte { x % 16 * 16 + y / 4 }
  function Byte2(y: Digit, z: Digit): Byte { y % 4 * 64 + z }

  lemma GroupRoundTrips(a: Byte, b: Byte, c: Byte)
    ensures Byte0(Digit0(a), Digit1(a, b)) == a
    ensures Byte1(Digit1(a, b), Digit2(b, c)) == b
    ensures Byte2(Digit2(b, c), Digit3(c)) == c
  {
  }

  lemma GroupRoundTripsBack(w: Digit, x: Digit, y: Digit, z: Digit)
    ensures Digit0(Byte0(w, x)) == w
    ensures Digit1(Byte0(w, x), Byte1(x, y)) == x
    ensures Digit2(Byte1(x, y), Byte2(y, z)) == y
    ensures Digit3(Byte2(y, z)) == z
    ensures Digit1(Byte0(w, x), 0) == x <==> x % 16 == 0
    ensures Digit2(Byte1(x, y), 0) == y <==> y % 4 == 0
  {
  }

  /** Three bytes make four digits; one or two left over make two or three. */
  function ToDigits(b: seq<Byte>): (digits: seq<Digit>)
    ensures |digits| == (4 * |b| + 2) / 3
  {
    if |b| == 0 then []
    else if |b| == 1 then [Digit0(b[0]), Digit1(b[0], 0)]
    else if |b| == 2 then [Digit0(b[0]), Digit1(b[0], b[1]), Digit2(b[1], 0)]
    else [Digit0(b[0]), Digit1(b[0], b[1]), Digit2(b[1], b[2]), Digit3(b[2])] + ToDigits(b[3..])
  }

  /** None when a single digit is left over; the low bits of a last short group are dropped. */
  function ToBytes(d: seq<Digit>): Option<seq<Byte>> {
    if |d| == 0 then Some([])
    else if |d| == 1 then None
    else if |d| == 2 then Some([Byte0(d[0], d[1])])
    else if |d| == 3 then Some([Byte0(d[0], d[1]), Byte1(d[1], d[2])])
    else
      match ToBytes(d[4..])
      case None => None
      case Some(rest) => Some([Byte0(d[0], d[1]), Byte1(d[1], d[2]), Byte2(d[2], d[3])] + rest)
  }

  lemma BytesOfGroup(w: Digit, x: Digit, y: Digit, z: Digit, rest: seq<Digit>)
    requires ToBytes(rest).Some?
    ensures ToBytes([w, x, y, z] + rest) == Some([Byte0(w, x), Byte1(x, y), Byte2(y, z)] + ToBytes(rest).value)
  {
    assert ([w, x, y, z] + rest)[4..] == rest;
  }

  lemma DigitsOfGroup(a: Byte, b: Byte, c: Byte, rest: seq<Byte>)
    ensures ToDigits([a, b, c] + rest) == [Digit0(a), Digit1(a, b), Digit2(b, c), Digit3(c)] + ToDigits(rest)
  {
    assert ([a, b, c] + rest)[3..] == rest;
  }

  lemma OneByteRoundTrip(a: Byte)
    ensures ToBytes(ToDigits([a])) == Some([a])
  {
    var d := ToDigits([a]);
    assert d[0] == Digit0(a) && d[1] == Digit1(a, 0);
    assert ToBytes(d) == Some([Byte0(d[0], d[1])]);
    GroupRoundTrips(a, 0, 0);
  }

  lemma TwoBytesRoundTrip(a: Byte, b: Byte)
    ensures ToBytes(ToDigits([a, b])) == Some([a, b])
  {
    var d := ToDigits([a, b]);
    assert d[0] == Digit0(a) && d[1] == Digit1(a, b) && d[2] == Digit2(b, 0);
    GroupRoundTrips(a, b, 0);
  }

  lemma {:induction false} BytesRoundTrip(b: seq<Byte>)
    ensures ToBytes(ToDigits(b)) == Some(b)
    decreases |b|
  {
    if |b| == 0 {
      assert b == [];
    } else if |b| == 1 {
      OneByteRoundTrip(b[0]);
      assert b == [b[0]];
    } else if |b| == 2 {
      TwoBytesRoundTrip(b[0], b[1]);
      assert b == [b[0], b[1]];
    } else {
      LongBytesRoundTrip(b[0], b[1], b[2], b[3..]);
      assert b == [b[0], b[1], b[2]] + b[3..];
    }
  }

  lemma {:induction false} LongBytesRoundTrip(a: Byte, b: Byte, c: Byte, rest: seq<Byte>)
    ensures ToBytes(ToDigits([a, b, c] + rest)) == Some([a, b, c] + rest)
    decreases |rest| + 2
  {
    BytesRoundTrip(rest);
    DigitsOfGroup(a, b, c, rest);
    BytesOfGroup(Digit0(a), Digit1(a, b), Digit2(b, c), Digit3(c), ToDigits(rest));
    GroupRoundTrips(a, b, c);
  }

  /** The unused bits of the last digit of a short group are zero. */
  predicate NoSpareBits(d: seq<Digit>) {
    && (|d| % 4 == 2 ==> d[|d| - 1] % 16 == 0)
    && (|d| % 4 == 3 ==> d[|d| - 1] % 4 == 0)
  }

  lemma {:induction false} DigitsRoundTrip(d: seq<Digit>)
    requires ToBytes(d).Some?
    ensures ToDigits(ToBytes(d).value) == d <==> NoSpareBits(d)
    decreases |d|
  {
    if |d| == 2 {
      GroupRoundTripsBack(d[0], d[1], 0, 0);
    } else if |d| == 3 {
      GroupRoundTripsBack(d[0], d[1], d[2], 0);
    } else if |d| >= 4 {
      assert d == [d[0], d[1], d[2], d[3]] + d[4..];
      LongDigitsRoundTrip(d[0], d[1], d[2], d[3], d[4..]);
    }
  }

  lemma PrefixCancels<T>(p: seq<T>, x: seq<T>, y: seq<T>)
    ensures p + x == p + y <==> x == y
  {
    assert (p + x)[|p|..] == x && (p + y)[|p|..] == y;
  }

  lemma SpareBitsOfGroup(w: Digit, x: Digit, y: Digit, z: Digit, rest: seq<Digit>)
    ensures NoSpareBits([w, x, y, z] + rest) <==> NoSpareBits(rest)
  {
    var d := [w, x, y, z] + rest;
    assert |d| % 4 == |rest| % 4;
    if rest != [] {
      assert d[|d| - 1] == rest[|rest| - 1];
    }
  }

  lemma {:induction false} LongDigitsRoundTrip(w: Digit, x: Digit, y: Digit, z: Digit, rest: seq<Digit>)
    requires ToBytes([w, x, y, z] + rest).Some?
    ensures var d := [w, x, y, z] + rest; ToDigits(ToBytes(d).value) == d <==> NoSpareBits(d)
    decreases |rest| + 3
  {
    assert ([w, x, y, z] + rest)[4..] == rest;
    DigitsRoundTrip(rest);
    BytesOfGroup(w, x, y, z, rest);
    DigitsOfGroup(Byte0(w, x), Byte1(x, y), Byte2(y, z), ToBytes(rest).value);
    GroupRoundTripsBack(w, x, y, z);
    SpareBitsOfGroup(w, x, y, z, rest);
    PrefixCancels([w, x, y, z], ToDigits(ToBytes(rest).value), rest);
  }

  // ----- Characters -----

  function CharsOf(alphabet: Alphabet, digits: seq<Digit>): (s: string)
    ensures |s| == |digits|
  {
    if digits == [] then "" else [CharOf(alphabet, digits[0])] + CharsOf(alphabet, digits[1..])
  }

  /** The digits of the characters that are not line breaks; None when another is not in the alphabet. */
  function DigitsOf(alphabet: Alphabet, s: string): Option<seq<Digit>> {
    if s == "" then Some([])
    else if IsLineBreak(s[0]) then DigitsOf(alphabet, s[1..])
    else
      var d, rest := DigitOf(alphabet, s[0]), DigitsOf(alphabet, s[1..]);
      if d.Some? && rest.Some? then Some([d.value] + rest.value) else None
  }

  lemma {:induction false} CharsRoundTrip(alphabet: Alphabet, digits: seq<Digit>)
    requires alphabet.Valid()
    ensures DigitsOf(alphabet, CharsOf(alphabet, digits)) == Some(digits)
  {
    if digits == [] {
      assert CharsOf(alphabet, digits) == "";
    } else {
      CharsRoundTrip(alphabet, digits[1..]);
      CharsAreDigits(alphabet, digits[0]);
      assert digits == [digits[0]] + digits[1..];
      assert CharsOf(alphabet, digits)[1..] == CharsOf(alphabet, digits[1..]);
    }
  }

  predicate NoLineBreaks(s: string) {
    forall i :: 0 <= i < |s| ==> !IsLineBreak(s[i])
  }

  lemma {:induction false} DigitsOfRoundTrip(alphabet: Alphabet, s: string)
    requires alphabet.Valid() && DigitsOf(alphabet, s).Some?
    ensures |DigitsOf(alphabet, s).value| <= |s|
    ensures CharsOf(alphabet, DigitsOf(alphabet, s).value) == s <==> NoLineBreaks(s)
    ensures NoLineBreaks(s) <==> |DigitsOf(alphabet, s).value| == |s|
  {
    if s != "" {
      DigitsOfRoundTrip(alphabet, s[1..]);
      if !IsLineBreak(s[0]) {
        DigitsAreChars(alphabet, s[0]);
        assert s == [s[0]] + s[1..];
        assert NoLineBreaks(s) <==> NoLineBreaks(s[1..]);
        assert CharsOf(alphabet, DigitsOf(alphabet, s).value)[1..] == CharsOf(alphabet, DigitsOf(alphabet, s[1..]).value);
      }
    }
  }

  // ----- The codec -----

  function Encode(alphabet: Alphabet, b: seq<Byte>): (s: string)
    ensures |s| == (4 * |b| + 2) / 3
  {
    CharsOf(alphabet, ToDigits(b))
  }

  function Decode(alphabet: Alphabet, s: string): Option<seq<Byte>> {
    match DigitsOf(alphabet, s)
    case None => None
    case Some(digits) => ToBytes(digits)
  }

  lemma DecodeEncode(alphabet: Alphabet, b: seq<Byte>)
    requires alphabet.Valid()
    ensures Decode(alphabet, Encode(alphabet, b)) == Some(b)
  {
    BytesRoundTrip(b);
    CharsRoundTrip(alphabet, ToDigits(b));
  }

  /** A text that decodes is the encoding of what it decodes to exactly when it has no line break and
      no stray bits at the end: the decoder accepts other spellings of the same bytes. */
  lemma EncodeDecodeIff(alphabet: Alphabet, s: string)
    requires alphabet.Valid() && Decode(alphabet, s).Some?
    ensures Encode(alphabet, Decode(alphabet, s).value) == s <==>
      NoLineBreaks(s) && NoSpareBits(DigitsOf(alphabet, s).value)
  {
    var digits := DigitsOf(alphabet, s).value;
    DigitsOfRoundTrip(alphabet, s);
    DigitsRoundTrip(digits);
    if Encode(alphabet, Decode(alphabet, s).value) == s {
      CharsRoundTrip(alphabet, ToDigits(ToBytes(digits).value));
    }
  }

  lemma {:induction false} BreakAddsNoDigit(alphabet: Alphabet, front: string, c: char, back: string)
    requires c == '\r' || c == '\n'
    ensures DigitsOf(alphabet, front + [c] + back) == DigitsOf(alphabet, front + back)
  {
    if front == "" {
      assert front + [c] + back == [c] + back && front + back == back;
    } else {
      BreakAddsNoDigit(alphabet, front[1..], c, back);
      assert (front + [c] + back)[1..] == front[1..] + [c] + back && (front + back)[1..] == front[1..] + back;
    }
  }

  /** Carriage returns and line feeds change nothing wherever they stand. */
  lemma LineBreaksAreIgnored(alphabet: Alphabet, front: string, c: char, back: string)
    requires c == '\r' || c == '\n'
    ensures Decode(alphabet, front + [c] + back) == Decode(alphabet, front + back)
  {
    BreakAddsNoDigit(alphabet, front, c, back);
  }

  /** Anything else outside the alphabet is refused wherever it stands. */
  lemma {:induction false} OthersAreRefused(alphabet: Alphabet, s: string, c: char)
    requires c in s && c != '\r' && c != '\n' && c != alphabet.c62 && c != alphabet.c63
    requires !('A' <= c <= 'Z') && !('a' <= c <= 'z') && !('0' <= c <= '9')
    ensures DigitsOf(alphabet, s) == None && Decode(alphabet, s) == None
  {
    if s[0] != c {
      OthersAreRefused(alphabet, s[1..], c);
    }
  }

  /** What is encoded is made of alphabet characters only. */
  lemma {:induction false} EncodedChars(alphabet: Alphabet, digits: seq<Digit>, c: char)
    requires c in CharsOf(alphabet, digits)
    ensures ('A' <= c <= 'Z') || ('a' <= c <= 'z') || ('0' <= c <= '9') || c == alphabet.c62 || c == alphabet.c63
  {
    if c != CharOf(alphabet, digits[0]) {
      EncodedChars(alphabet, digits[1..], c);
    }
  }
}
