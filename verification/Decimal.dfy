/** Decimal numbers as text: printing, zero padding, and the scanning of fmt.Sscanf. */
module Decimal {
  import opened Arithmetic
  import opened Text
  import opened Wrappers

  predicate IsDigit(c: char) {
    '0' <= c <= '9'
  }

  predicate AllDigits(s: string) {
    forall i :: 0 <= i < |s| ==> IsDigit(s[i])
  }

  function DigitChar(n: nat): char
    requires n < 10
  {
    '0' + n as char
  }

  function Value(s: string): nat
    requires AllDigits(s)
  {
    if s == "" then 0 else 10 * Value(s[..|s| - 1]) + (s[|s| - 1] - '0') as int
  }

  lemma ValueStep(s: string, c: char)
    requires AllDigits(s) && IsDigit(c)
    ensures AllDigits(s + [c]) && Value(s + [c]) == 10 * Value(s) + (c - '0') as int
  {
    assert (s + [c])[..|s|] == s;
  }

  /** %d */
  function Dec(n: nat): (s: string)
    ensures s != "" && AllDigits(s)
  {
    if n < 10 then [DigitChar(n)] else Dec(n / 10) + [DigitChar(n % 10)]
  }

  lemma {:induction false} ValueOfDec(n: nat)
    ensures Value(Dec(n)) == n
  {
    if n < 10 {
      ValueStep("", DigitChar(n));
      assert "" + [DigitChar(n)] == [DigitChar(n)];
    } else {
      ValueOfDec(n / 10);
      ValueStep(Dec(n / 10), DigitChar(n % 10));
    }
  }

  function Pow10(k: nat): nat
    ensures Pow10(k) > 0
  {
    if k == 0 then 1 else 10 * Pow10(k - 1)
  }

  /** The last digits of n, zero padded to the width. */
  function Pad(n: nat, width: nat): (s: string)
    ensures |s| == width && AllDigits(s)
  {
    if width == 0 then "" else Pad(n / 10, width - 1) + [DigitChar(n % 10)]
  }

  lemma {:induction false} ValueOfPad(n: nat, width: nat)
    requires n < Pow10(width)
    ensures Value(Pad(n, width)) == n
  {
    if width == 0 {
      assert Pow10(0) == 1;
    } else {
      assert Pow10(width) == 10 * Pow10(width - 1);
      ValueOfPad(n / 10, width - 1);
      ValueStep(Pad(n / 10, width - 1), DigitChar(n % 10));
    }
  }

  // ----- Scanning -----

  /** The longest prefix of digits. */
  function DigitRun(s: string): (run: string)
    ensures AllDigits(run) && run <= s
  {
    if s == "" || !IsDigit(s[0]) then "" else [s[0]] + DigitRun(s[1..])
  }

  lemma FirstDigit(digits: string, rest: string)
    requires digits != ""
    ensures var s := digits + rest;
      && s != "" && s[0] == digits[0] && s[1..] == digits[1..] + rest
      && s[|digits|..] == (digits[1..] + rest)[|digits[1..]|..] && digits == [digits[0]] + digits[1..]
  {
  }

  lemma {:induction false} DigitRunOf(digits: string, rest: string)
    requires AllDigits(digits) && (rest != "" ==> !IsDigit(rest[0]))
    ensures DigitRun(digits + rest) == digits && (digits + rest)[|digits|..] == rest
  {
    if digits == "" {
      assert digits + rest == rest;
    } else {
      DigitRunOf(digits[1..], rest);
      FirstDigit(digits, rest);
    }
  }

  /** Blanks are skipped before a number; a line break is an error. */
  function SkipSpace(s: string): Option<string> {
    if s == "" then Some("")
    else if s[0] == '\n' then None
    else if IsSpace(s[0]) then SkipSpace(s[1..])
    else Some(s)
  }

  /** A literal of the format must come next exactly. */
  function Literal(s: string, literal: string): Option<string> {
    if literal <= s then Some(s[|literal|..]) else None
  }

  /** A number below the limit and the input after it. */
  function ScanUint(s: string, limit: nat): Option<(nat, string)> {
    match SkipSpace(s)
    case None => None
    case Some(t) =>
      var run := DigitRun(t);
      if run == "" || Value(run) >= limit then None else Some((Value(run), t[|run|..]))
  }

  const INT64_LIMIT: nat := 0x8000_0000_0000_0000

  /** The same with an optional sign, for a signed 64-bit number. */
  function ScanInt(s: string): Option<(int, string)> {
    match SkipSpace(s)
    case None => None
    case Some(t) =>
      var unsigned := if t != "" && (t[0] == '+' || t[0] == '-') then t[1..] else t;
      var negative := t != "" && t[0] == '-';
      var run := DigitRun(unsigned);
      if run == "" || Value(run) >= INT64_LIMIT + (if negative then 1 else 0) then None
      else
        var value: int := Value(run);
        Some((if negative then -value else value, unsigned[|run|..]))
  }

  lemma DigitIsNoSpace(digits: string, rest: string)
    requires AllDigits(digits) && digits != ""
    ensures var s := digits + rest; s != "" && s[0] == digits[0] && IsDigit(s[0]) && SkipSpace(s) == Some(s)
  {
  }

  lemma ScanUintOf(digits: string, rest: string, limit: nat)
    requires AllDigits(digits) && digits != "" && (rest != "" ==> !IsDigit(rest[0]))
    ensures ScanUint(digits + rest, limit) == if Value(digits) < limit then Some((Value(digits), rest)) else None
  {
    DigitIsNoSpace(digits, rest);
    DigitRunOf(digits, rest);
  }

  lemma ScanIntOf(digits: string, rest: string)
    requires AllDigits(digits) && digits != "" && (rest != "" ==> !IsDigit(rest[0]))
    requires Value(digits) < INT64_LIMIT
    ensures ScanInt(digits + rest) == Some((Value(digits) as int, rest))
  {
    DigitIsNoSpace(digits, rest);
    DigitRunOf(digits, rest);
  }

  /** What was printed with %d is scanned back, whatever follows it that is not a digit. */
  lemma ScanPrinted(n: nat, rest: string, limit: nat)
    requires rest != "" ==> !IsDigit(rest[0])
    ensures ScanUint(Dec(n) + rest, limit) == if n < limit then Some((n, rest)) else None
    ensures n < INT64_LIMIT ==> ScanInt(Dec(n) + rest) == Some((n as int, rest))
  {
    ValueOfDec(n);
    ScanUintOf(Dec(n), rest, limit);
    if n < INT64_LIMIT {
      ScanIntOf(Dec(n), rest);
    }
  }

  ghost predicate Blanks(s: string) {
    forall i :: 0 <= i < |s| ==> IsSpace(s[i]) && s[i] != '\n'
  }

  /** All blanks are skipped, and a line feed behind them is an error. */
  lemma {:induction false} SkipSpaceOf(blanks: string, s: string)
    requires Blanks(blanks)
    ensures SkipSpace(blanks + s) == SkipSpace(s)
    ensures SkipSpace(blanks + ("\n" + s)) == None && SkipSpace(blanks) == Some("")
  {
    if blanks == "" {
      assert blanks + s == s && blanks + ("\n" + s) == "\n" + s;
    } else {
      SkipSpaceOf(blanks[1..], s);
      assert (blanks + s)[1..] == blanks[1..] + s && (blanks + ("\n" + s))[1..] == blanks[1..] + ("\n" + s);
    }
  }

  /** Blanks before a number make no difference. */
  lemma BlanksMakeNoDifference(blanks: string, s: string, limit: nat)
    requires Blanks(blanks)
    ensures ScanInt(blanks + s) == ScanInt(s) && ScanUint(blanks + s, limit) == ScanUint(s, limit)
    ensures ScanInt(blanks + ("\n" + s)) == None && ScanUint(blanks + ("\n" + s), limit) == None
  {
    SkipSpaceOf(blanks, s);
  }

  lemma NoBlankFirst(s: string)
    requires s != "" && !IsSpace(s[0])
    ensures SkipSpace(s) == Some(s)
  {
  }

  /** A number may have a sign, must have a digit and must fit 64 bits; it is scanned up to the first character
      that is not a digit. */
  lemma ScanSigned(sign: char, digits: string, rest: string)
    requires sign in {'+', '-'} && AllDigits(digits) && (rest != "" ==> !IsDigit(rest[0]))
    ensures var value: int := Value(digits);
      ScanInt([sign] + (digits + rest)) ==
        if digits == "" || value >= 0x8000_0000_0000_0000 + (if sign == '-' then 1 else 0) then None
        else Some((if sign == '-' then -value else value, rest))
  {
    var s := [sign] + (digits + rest);
    assert s[1..] == digits + rest;
    NoBlankFirst(s);
    DigitRunOf(digits, rest);
  }

  /** Without a sign there must be a digit too. */
  lemma NoDigitNoNumber(s: string, limit: nat)
    requires s == "" || (!IsDigit(s[0]) && !IsSpace(s[0]))
    ensures ScanUint(s, limit) == None
    ensures s == "" || (s[0] != '+' && s[0] != '-') ==> ScanInt(s) == None
  {
  }

  lemma LiteralThen(literal: string, rest: string)
    ensures Literal(literal + rest, literal) == Some(rest)
  {
  }
}
