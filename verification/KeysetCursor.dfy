/**
 The opaque pagination cursor: an RFC 3339 timestamp and a UUID joined by a bar, in URL-safe base 64.
 An instant counts nanoseconds from the start of year 0, UTC.
 */
module KeysetCursor {
  import opened Base64
  import opened Calendar
  import opened Decimal
  import opened Wrappers

  type Uuid = b: seq<Byte> | |b| == 16 witness [0, 0, 0, 0, 0, 0, 0, 0, 0, 0, 0, 0, 0, 0, 0, 0]

  // ----- Timestamps -----

  function TrimZeros(s: string): (r: string)
    requires AllDigits(s)
    ensures r <= s && (r != "" ==> r[|r| - 1] != '0')
  {
    if s != "" && s[|s| - 1] == '0' then TrimZeros(s[..|s| - 1]) else s
  }

  /** The fraction with trailing zeros cut off, and nothing at all for a whole second. */
  function Fraction(nanos: nat): string {
    if nanos == 0 then "" else "." + TrimZeros(Pad(nanos, 9))
  }

  function YearDigits(year: nat): string {
    if year <= 9999 then Pad(year, 4) else Dec(year)
  }

  function DateAndTime(c: Civil): string {
    YearDigits(c.year) + "-" + Pad(c.month, 2) + "-" + Pad(c.day, 2) + "T"
    + Pad(c.hour, 2) + ":" + Pad(c.minute, 2) + ":" + Pad(c.second, 2)
  }

  /** The UTC instant in the layout RFC3339Nano. */
  function FormatTime(t: nat): string {
    DateAndTime(FromInstant(t)) + Fraction(FromInstant(t).nanos) + "Z"
  }

  /** A field of digits within a range. */
  function Num(s: string, min: nat, max: nat): Option<nat> {
    if AllDigits(s) && min <= Value(s) <= max then Some(Value(s)) else None
  }

  /** At most nine digits after the point count, scaled to nanoseconds. */
  function NanosOf(run: string): nat
    requires AllDigits(run)
  {
    var digits := if |run| > 9 then run[..9] else run;
    Value(digits) * Pow10(9 - |digits|)
  }

  /** The date and time of the first nineteen characters, with its separators. */
  function ParseDateAndTime(s: string): Option<Civil>
    requires |s| >= 19
  {
    var year, month := Num(s[0..4], 0, 9999), Num(s[5..7], 1, 12);
    if year.None? || month.None? then None
    else
      var day := Num(s[8..10], 1, DaysInMonth(year.value, month.value));
      var hour, minute, second := Num(s[11..13], 0, 23), Num(s[14..16], 0, 59), Num(s[17..19], 0, 59);
      if day.None? || hour.None? || minute.None? || second.None? then None
      else if !(s[4] == '-' && s[7] == '-' && s[10] == 'T' && s[13] == ':' && s[16] == ':') then None
      else Some(Civil(year.value, month.value, day.value, hour.value, minute.value, second.value, 0))
  }

  /** The offset in seconds of Z or of a numeric zone. */
  function ParseZone(s: string): Option<int> {
    if s == "Z" then Some(0)
    else if |s| != 6 then None
    else
      var hours, minutes := Num(s[1..3], 0, 23), Num(s[4..6], 0, 59);
      if hours.None? || minutes.None? || !((s[0] == '-' || s[0] == '+') && s[3] == ':') then None
      else
        var offset: int := (hours.value * 60 + minutes.value) * 60;
        Some(if s[0] == '-' then -offset else offset)
  }

  function SplitFraction(s: string): (string, string) {
    if |s| >= 2 && s[0] == '.' && IsDigit(s[1]) then
      var run := DigitRun(s[1..]);
      (run, s[1 + |run|..])
    else ("", s)
  }

  /** An RFC 3339 timestamp as an instant. */
  function ParseTime(s: string): Option<int> {
    if |s| < 19 || ParseDateAndTime(s).None? then None
    else
      var run, zone := DigitRunOfFraction(s[19..]), SplitFraction(s[19..]).1;
      var civil := ParseDateAndTime(s).value;
      if ParseZone(zone).None? then None
      else Some(Instant(civil.(nanos := NanosOf(run))) - ParseZone(zone).value * SECOND)
  }

  function DigitRunOfFraction(s: string): (run: string)
    ensures AllDigits(run)
  {
    SplitFraction(s).0
  }

  lemma ScaleDigits(value: nat, k: nat)
    ensures value * Pow10(k + 1) == 10 * (value * Pow10(k))
  {
  }

  lemma {:induction false} TrimmedValue(s: string)
    requires AllDigits(s)
    ensures Value(TrimZeros(s)) * Pow10(|s| - |TrimZeros(s)|) == Value(s)
  {
    if s != "" && s[|s| - 1] == '0' {
      var front := s[..|s| - 1];
      TrimmedValue(front);
      ScaleDigits(Value(TrimZeros(front)), |front| - |TrimZeros(front)|);
    } else {
      UntrimmedValue(s);
    }
  }

  lemma UntrimmedValue(s: string)
    requires AllDigits(s) && TrimZeros(s) == s
    ensures Value(TrimZeros(s)) * Pow10(|s| - |TrimZeros(s)|) == Value(s)
  {
    assert Pow10(0) == 1;
  }

  lemma NanosOfFraction(nanos: nat)
    requires 0 < nanos < SECOND
    ensures var digits := TrimZeros(Pad(nanos, 9)); digits != "" && NanosOf(digits) == nanos
  {
    assert Pow10(9) == SECOND;
    ValueOfPad(nanos, 9);
    TrimmedValue(Pad(nanos, 9));
    assert Value("") == 0;
  }

  lemma FractionIsRead(nanos: nat, rest: string)
    requires nanos < SECOND && rest != "" && rest[0] != '.' && !IsDigit(rest[0])
    ensures var (run, after) := SplitFraction(Fraction(nanos) + rest);
      AllDigits(run) && NanosOf(run) == nanos && after == rest
  {
    if nanos == 0 {
      assert Fraction(nanos) + rest == rest;
      assert Value("") == 0;
    } else {
      NanosOfFraction(nanos);
      SplitDigits(TrimZeros(Pad(nanos, 9)), rest);
    }
  }

  lemma SplitDigits(digits: string, rest: string)
    requires AllDigits(digits) && digits != "" && rest != "" && !IsDigit(rest[0])
    ensures SplitFraction("." + digits + rest) == (digits, rest)
  {
    var s := "." + digits + rest;
    assert s[1..] == digits + rest;
    DigitRunOf(digits, rest);
    assert s[1] == digits[0];
    assert s[1 + |digits|..] == rest;
  }

  /** The nineteen characters before the fraction, field by field. */
  lemma Layout(y: string, mo: string, d: string, h: string, mi: string, s: string, rest: string)
    requires |y| == 4 && |mo| == |d| == |h| == |mi| == |s| == 2
    ensures var t := y + "-" + mo + "-" + d + "T" + h + ":" + mi + ":" + s + rest;
      && |t| == 19 + |rest|
      && t[0..4] == y && t[5..7] == mo && t[8..10] == d && t[11..13] == h && t[14..16] == mi && t[17..19] == s
      && t[4] == '-' && t[7] == '-' && t[10] == 'T' && t[13] == ':' && t[16] == ':' && t[19..] == rest
  {
  }

  lemma NumOfPad(n: nat, width: nat, min: nat, max: nat)
    requires n < Pow10(width) && min <= n <= max
    ensures Num(Pad(n, width), min, max) == Some(n)
  {
    ValueOfPad(n, width);
  }

  lemma DateAndTimeIsRead(c: Civil, rest: string)
    requires IsDate(c) && IsTimeOfDay(c) && c.year <= 9999
    ensures var s := DateAndTime(c) + rest;
      |s| >= 19 && ParseDateAndTime(s) == Some(c.(nanos := 0)) && s[19..] == rest
  {
    assert Pow10(2) == 100 && Pow10(4) == 10000;
    NumOfPad(c.year, 4, 0, 9999);
    NumOfPad(c.month, 2, 1, 12);
    NumOfPad(c.day, 2, 1, DaysInMonth(c.year, c.month));
    NumOfPad(c.hour, 2, 0, 23);
    NumOfPad(c.minute, 2, 0, 59);
    NumOfPad(c.second, 2, 0, 59);
    Layout(Pad(c.year, 4), Pad(c.month, 2), Pad(c.day, 2), Pad(c.hour, 2), Pad(c.minute, 2), Pad(c.second, 2), rest);
  }

  lemma ParseTimeOfParts(s: string, c: Civil, nanos: nat, offset: int)
    requires |s| >= 19 && ParseDateAndTime(s) == Some(c)
    requires ParseZone(SplitFraction(s[19..]).1) == Some(offset) && NanosOf(DigitRunOfFraction(s[19..])) == nanos
    ensures IsDate(c) && ParseTime(s) == Some(Instant(c.(nanos := nanos)) - offset * SECOND)
  {
  }

  /** A numeric zone as RFC 3339 writes it. */
  function Zone(sign: char, hours: nat, minutes: nat): (zone: string)
    ensures zone != "" && zone[0] == sign
  {
    [sign] + Pad(hours, 2) + ":" + Pad(minutes, 2)
  }

  lemma ZoneIsRead(sign: char, hours: nat, minutes: nat)
    requires sign in {'+', '-'} && hours < 24 && minutes < 60
    ensures var offset: int := hours * 3600 + minutes * 60;
      ParseZone(Zone(sign, hours, minutes)) == Some(if sign == '-' then -offset else offset)
  {
    assert Pow10(2) == 100;
    NumOfPad(hours, 2, 0, 23);
    NumOfPad(minutes, 2, 0, 59);
    var s := Zone(sign, hours, minutes);
    assert s[1..3] == Pad(hours, 2) && s[4..6] == Pad(minutes, 2);
  }

  /** A local time with a zone behind it is read as the instant it means. */
  lemma ZonedTimeIsRead(c: Civil, zone: string, offset: int)
    requires IsDate(c) && IsTimeOfDay(c) && c.year <= 9999
    requires zone != "" && zone[0] != '.' && !IsDigit(zone[0]) && ParseZone(zone) == Some(offset)
    ensures ParseTime(DateAndTime(c) + (Fraction(c.nanos) + zone)) == Some(Instant(c) - offset * SECOND)
  {
    var rest := Fraction(c.nanos) + zone;
    FractionIsRead(c.nanos, zone);
    DateAndTimeIsRead(c, rest);
    PartsAreTime(DateAndTime(c) + rest, c, rest, zone, offset);
  }

  lemma PartsAreTime(s: string, c: Civil, rest: string, zone: string, offset: int)
    requires IsDate(c) && |s| >= 19 && ParseDateAndTime(s) == Some(c.(nanos := 0)) && s[19..] == rest
    requires SplitFraction(rest).1 == zone && AllDigits(SplitFraction(rest).0) && NanosOf(SplitFraction(rest).0) == c.nanos
    requires ParseZone(zone) == Some(offset)
    ensures ParseTime(s) == Some(Instant(c) - offset * SECOND)
  {
    assert c.(nanos := 0).(nanos := c.nanos) == c;
  }

  /** A text is only ever read as a time if its separators are in their places and it ends in Z or in a signed
      offset of hours and minutes. */
  lemma ReadTimesAreLaidOut(s: string)
    requires ParseTime(s).Some?
    ensures |s| >= 20 && s[4] == '-' && s[7] == '-' && s[10] == 'T' && s[13] == ':' && s[16] == ':'
    ensures exists n ::
      && 19 <= n < |s|
      && (s[n..] == "Z" || (|s[n..]| == 6 && s[n] in {'+', '-'} && s[n + 3] == ':'))
  {
    var zone := SplitFraction(s[19..]).1;
    assert zone == s[|s| - |zone|..];
  }

  /** Every instant of years 0 to 9999 is read back from its text. */
  lemma ParseFormattedTime(t: nat)
    requires FourDigitYear(t)
    ensures ParseTime(FormatTime(t)) == Some(t)
  {
    var c := FromInstant(t);
    FourDigitYearIs(t);
    var rest := Fraction(c.nanos) + "Z";
    assert FormatTime(t) == DateAndTime(c) + rest;
    DateAndTimeIsRead(c, rest);
    FractionIsRead(c.nanos, "Z");
    ParseTimeOfParts(FormatTime(t), c.(nanos := 0), c.nanos, 0);
    InstantOfFields(t);
  }

  // ----- UUIDs -----

  function HexChar(n: nat): char
    requires n < 16
  {
    if n < 10 then '0' + n as char else 'a' + (n - 10) as char
  }

  function HexValue(c: char): Option<nat> {
    if '0' <= c <= '9' then Some((c - '0') as int)
    else if 'a' <= c <= 'f' then Some((c - 'a') as int + 10)
    else if 'A' <= c <= 'F' then Some((c - 'A') as int + 10)
    else None
  }

  function Hex(b: seq<Byte>): (s: string)
    ensures |s| == 2 * |b|
  {
    if b == [] then "" else [HexChar(b[0] / 16), HexChar(b[0] % 16)] + Hex(b[1..])
  }

  function ByteOf(high: char, low: char): Option<Byte> {
    if HexValue(high).Some? && HexValue(low).Some? then
      var b: int := HexValue(high).value * 16 + HexValue(low).value;
      Some(b)
    else None
  }

  function FromHex(s: string): Option<seq<Byte>>
    requires |s| % 2 == 0
  {
    if s == "" then Some([])
    else
      var b, rest := ByteOf(s[0], s[1]), FromHex(s[2..]);
      if b.Some? && rest.Some? then Some([b.value] + rest.value) else None
  }

  lemma {:induction false} HexRoundTrip(b: seq<Byte>)
    ensures FromHex(Hex(b)) == Some(b)
  {
    if b == [] {
      assert Hex(b) == "";
    } else {
      HexRoundTrip(b[1..]);
      assert Hex(b)[2..] == Hex(b[1..]);
      assert b == [b[0]] + b[1..];
    }
  }

  lemma {:induction false} HexConcat(a: seq<Byte>, b: seq<Byte>)
    ensures Hex(a + b) == Hex(a) + Hex(b)
  {
    if a == [] {
      assert a + b == b;
    } else {
      HexConcat(a[1..], b);
      var first := [HexChar(a[0] / 16), HexChar(a[0] % 16)];
      assert (a + b)[0] == a[0] && (a + b)[1..] == a[1..] + b;
      assert Hex(a + b) == first + Hex(a[1..] + b);
      Assoc(first, Hex(a[1..]), Hex(b));
    }
  }

  lemma Assoc(a: string, b: string, c: string)
    ensures a + (b + c) == (a + b) + c
  {
  }

  /** uuid.String */
  function UuidText(id: Uuid): string {
    Hex(id[0..4]) + "-" + Hex(id[4..6]) + "-" + Hex(id[6..8]) + "-" + Hex(id[8..10]) + "-" + Hex(id[10..16])
  }

  /** The dashed form; what follows it is not looked at. */
  function ParseDashed(s: string): Option<Uuid>
    requires |s| >= 36
  {
    if s[8] != '-' || s[13] != '-' || s[18] != '-' || s[23] != '-' then None
    else ParseHex(s[0..8] + s[9..13] + s[14..18] + s[19..23] + s[24..36])
  }

  function ParseHex(s: string): Option<Uuid>
    requires |s| == 32
  {
    match FromHex(s) case Some(b) => (if |b| == 16 then Some(b) else None) case None => None
  }

  predicate IsUrnPrefix(s: string) {
    |s| == 9 && forall i :: 0 <= i < 9 ==> s[i] == "urn:uuid:"[i] || s[i] == "URN:UUID:"[i]
  }

  /** uuid.Parse: the dashed form, alone, after urn:uuid: or in braces, and 32 bare hex digits. */
  function ParseUuid(s: string): Option<Uuid> {
    if |s| == 36 then ParseDashed(s)
    else if |s| == 45 then (if IsUrnPrefix(s[..9]) then ParseDashed(s[9..]) else None)
    else if |s| == 38 then ParseDashed(s[1..])
    else if |s| == 32 then ParseHex(s)
    else None
  }

  lemma Dashes(a: string, b: string, c: string, d: string, e: string)
    requires |a| == 8 && |b| == |c| == |d| == 4 && |e| == 12
    ensures var s := a + "-" + b + "-" + c + "-" + d + "-" + e;
      && |s| == 36 && s[8] == '-' && s[13] == '-' && s[18] == '-' && s[23] == '-'
      && s[0..8] == a && s[9..13] == b && s[14..18] == c && s[19..23] == d && s[24..36] == e
  {
  }

  lemma HexOfFive(id: Uuid)
    ensures Hex(id) == Hex(id[0..4]) + Hex(id[4..6]) + Hex(id[6..8]) + Hex(id[8..10]) + Hex(id[10..16])
  {
    HexOfSlices(id, 0, 4, 16);
    HexOfSlices(id, 4, 6, 16);
    HexOfSlices(id, 6, 8, 16);
    HexOfSlices(id, 8, 10, 16);
    assert id[0..16] == id;
  }

  lemma HexOfSlices(b: seq<Byte>, from: nat, mid: nat, to: nat)
    requires from <= mid <= to <= |b|
    ensures Hex(b[from..to]) == Hex(b[from..mid]) + Hex(b[mid..to])
  {
    assert b[from..to] == b[from..mid] + b[mid..to];
    HexConcat(b[from..mid], b[mid..to]);
  }

  lemma ParsePrintedUuid(id: Uuid)
    ensures |UuidText(id)| == 36 && ParseUuid(UuidText(id)) == Some(id)
  {
    Dashes(Hex(id[0..4]), Hex(id[4..6]), Hex(id[6..8]), Hex(id[8..10]), Hex(id[10..16]));
    HexOfFive(id);
    HexRoundTrip(id);
  }

  lemma DashedThen(s: string, tail: string)
    requires |s| == 36
    ensures ParseDashed(s + tail) == ParseDashed(s)
  {
    var t := s + tail;
    assert t[0..8] == s[0..8] && t[9..13] == s[9..13] && t[14..18] == s[14..18];
    assert t[19..23] == s[19..23] && t[24..36] == s[24..36];
  }

  /** The printed form is read back after a URN prefix in any case and between any two characters, and the
      digits without dashes. */
  lemma OtherFormsAreRead(id: Uuid, urn: string, open: char, close: char)
    requires |urn| == 9 && forall i :: 0 <= i < 9 ==> urn[i] == "urn:uuid:"[i] || urn[i] == "URN:UUID:"[i]
    ensures ParseUuid(urn + UuidText(id)) == Some(id)
    ensures ParseUuid([open] + (UuidText(id) + [close])) == Some(id)
    ensures ParseUuid(Hex(id)) == Some(id)
  {
    ParsePrintedUuid(id);
    DashedThen(UuidText(id), [close]);
    HexRoundTrip(id);
    var long, braced := urn + UuidText(id), [open] + (UuidText(id) + [close]);
    assert long[..9] == urn && long[9..] == UuidText(id);
    assert braced[1..] == UuidText(id) + [close];
  }

  /** Nothing else is read: the length, the dashes and the prefix must be right. */
  lemma OnlyThoseFormsAreRead(s: string)
    requires ParseUuid(s).Some?
    ensures |s| in {32, 36, 38, 45}
    ensures |s| != 32 ==>
      var from := if |s| == 45 then 9 else if |s| == 38 then 1 else 0;
      s[from + 8] == '-' && s[from + 13] == '-' && s[from + 18] == '-' && s[from + 23] == '-'
    ensures |s| == 45 ==> forall i :: 0 <= i < 9 ==> s[i] == "urn:uuid:"[i] || s[i] == "URN:UUID:"[i]
  {
    if |s| == 45 {
      assert forall i :: 0 <= i < 9 ==> s[..9][i] == s[i];
    }
  }

  function UpperHex(s: string): (upper: string)
    ensures |upper| == |s|
  {
    if s == "" then "" else [if 'a' <= s[0] <= 'f' then 'A' + (s[0] - 'a') else s[0]] + UpperHex(s[1..])
  }

  /** Hex digits mean the same in upper case. */
  lemma {:induction false} CaseMakesNoDifference(s: string)
    requires |s| % 2 == 0
    ensures FromHex(UpperHex(s)) == FromHex(s)
  {
    if s != "" {
      CaseMakesNoDifference(s[2..]);
      assert s[1..][1..] == s[2..];
      assert UpperHex(s)[2..] == UpperHex(s[2..]);
    }
  }

  // ----- The cursor -----

  predicate IsAscii(s: string) {
    forall i :: 0 <= i < |s| ==> s[i] as int < 128
  }

  /** The bytes of a text of single-byte characters, and the text of bytes. */
  function BytesOf(s: string): (b: seq<Byte>)
    requires IsAscii(s)
    ensures |b| == |s| && forall i :: 0 <= i < |s| ==> b[i] == s[i] as int
  {
    if s == "" then [] else [s[0] as int] + BytesOf(s[1..])
  }

  function TextOf(b: seq<Byte>): (s: string)
    ensures |s| == |b| && forall i :: 0 <= i < |b| ==> s[i] as int == b[i]
  {
    if b == [] then "" else [b[0] as char] + TextOf(b[1..])
  }

  /** strings.SplitN(s, "|", 2), when there is a bar. */
  function SplitAtBar(s: string): Option<(string, string)> {
    if s == "" then None
    else if s[0] == '|' then Some(("", s[1..]))
    else match SplitAtBar(s[1..]) case None => None case Some((a, b)) => Some(([s[0]] + a, b))
  }

  lemma {:induction false} SplitAtFirstBar(a: string, b: string)
    requires '|' !in a
    ensures SplitAtBar(a + "|" + b) == Some((a, b))
  {
    var s := a + "|" + b;
    if a == "" {
      assert s[1..] == b;
    } else {
      SplitAtFirstBar(a[1..], b);
      assert s[1..] == a[1..] + "|" + b;
      assert a == [a[0]] + a[1..];
    }
  }

  function RawCursor(t: nat, id: Uuid): string {
    FormatTime(t) + "|" + UuidText(id)
  }

  /** The characters a timestamp and a UUID are made of: none is the bar, all are ASCII. */
  predicate IsPlain(s: string) {
    forall i :: 0 <= i < |s| ==> s[i] as int < 124
  }

  lemma PlainDigits(s: string)
    requires AllDigits(s)
    ensures IsPlain(s)
  {
  }

  lemma PlainTime(t: nat)
    ensures IsPlain(FormatTime(t))
  {
    var c := FromInstant(t);
    PlainDigits(YearDigits(c.year));
    PlainDigits(TrimZeros(Pad(c.nanos, 9)));
    assert IsPlain(Fraction(c.nanos));
    assert IsPlain(DateAndTime(c));
  }

  lemma {:induction false} PlainHex(b: seq<Byte>)
    ensures IsPlain(Hex(b))
  {
    if b != [] {
      PlainHex(b[1..]);
    }
  }

  lemma PlainUuid(id: Uuid)
    ensures IsPlain(UuidText(id))
  {
    PlainHex(id[0..4]);
    PlainHex(id[4..6]);
    PlainHex(id[6..8]);
    PlainHex(id[8..10]);
    PlainHex(id[10..16]);
  }

  lemma RawCursorIsAscii(t: nat, id: Uuid)
    ensures IsAscii(RawCursor(t, id)) && '|' !in FormatTime(t)
  {
    PlainTime(t);
    PlainUuid(id);
  }

  function EncodeCursor(t: nat, id: Uuid): string {
    RawCursorIsAscii(t, id);
    Encode(URL, BytesOf(RawCursor(t, id)))
  }

  function DecodeCursor(cursor: string): Option<(int, Uuid)> {
    match Base64.Decode(URL, cursor)
    case None => None
    case Some(data) =>
      match SplitAtBar(TextOf(data))
      case None => None
      case Some((time, uuid)) =>
        var t, id := ParseTime(time), ParseUuid(uuid);
        if t.None? || id.None? then None else Some((t.value, id.value))
  }

  /** Decoding the cursor of a position gives that position, for every instant of years 0 to 9999 and
      every UUID. */
  lemma CursorRoundTrip(t: nat, id: Uuid)
    requires FourDigitYear(t)
    ensures DecodeCursor(EncodeCursor(t, id)) == Some((t as int, id))
  {
    var raw := RawCursor(t, id);
    RawCursorIsAscii(t, id);
    DecodeEncode(URL, BytesOf(raw));
    assert TextOf(BytesOf(raw)) == raw;
    SplitAtFirstBar(FormatTime(t), UuidText(id));
    ParseFormattedTime(t);
    ParsePrintedUuid(id);
  }

  /** So different positions have different cursors. */
  lemma CursorsAreDistinct(t: nat, id: Uuid, u: nat, other: Uuid)
    requires FourDigitYear(t) && FourDigitYear(u)
    ensures EncodeCursor(t, id) == EncodeCursor(u, other) <==> t == u && id == other
  {
    CursorRoundTrip(t, id);
    CursorRoundTrip(u, other);
  }
}
