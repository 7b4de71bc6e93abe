/**
 Instants and the proleptic Gregorian calendar: nanoseconds since the start of year 0, UTC, split into
 the fields that RFC 3339 prints.
 */
module Calendar {
  import opened Arithmetic

  const SECOND: nat := 1_000_000_000
  const DAY: nat := 86400 * SECOND

  datatype Civil = Civil(year: nat, month: nat, day: nat, hour: nat, minute: nat, second: nat, nanos: nat)

  predicate IsLeap(year: nat) {
    year % 4 == 0 && (year % 100 != 0 || year % 400 == 0)
  }

  function DaysInYear(year: nat): nat {
    if IsLeap(year) then 366 else 365
  }

  function DaysInMonth(year: nat, month: nat): nat {
    if month == 2 then (if IsLeap(year) then 29 else 28)
    else if month in {4, 6, 9, 11} then 30
    else 31
  }

  predicate IsDate(c: Civil) {
    1 <= c.month <= 12 && 1 <= c.day <= DaysInMonth(c.year, c.month)
  }

  predicate IsTimeOfDay(c: Civil) {
    c.hour < 24 && c.minute < 60 && c.second < 60 && c.nanos < SECOND
  }

  function DaysBeforeYear(year: nat): nat {
    if year == 0 then 0 else DaysBeforeYear(year - 1) + DaysInYear(year - 1)
  }

  function DaysBeforeMonth(year: nat, month: nat): nat {
    if month <= 1 then 0 else DaysBeforeMonth(year, month - 1) + DaysInMonth(year, month - 1)
  }

  function DayNumber(c: Civil): nat
    requires IsDate(c)
  {
    DaysBeforeYear(c.year) + DaysBeforeMonth(c.year, c.month) + (c.day - 1)
  }

  function TimeOfDay(c: Civil): nat {
    ((c.hour * 60 + c.minute) * 60 + c.second) * SECOND + c.nanos
  }

  function Instant(c: Civil): nat
    requires IsDate(c)
  {
    DayNumber(c) * DAY + TimeOfDay(c)
  }

  /** The year a day number counted from the start of a year falls in, and the day within it. */
  function YearOf(days: nat, year: nat): (r: (nat, nat))
    ensures r.0 >= year && r.1 < DaysInYear(r.0)
    ensures DaysBeforeYear(r.0) + r.1 == DaysBeforeYear(year) + days
    decreases days
  {
    if days < DaysInYear(year) then (year, days) else YearOf(days - DaysInYear(year), year + 1)
  }

  lemma YearLength(year: nat)
    ensures DaysBeforeMonth(year, 13) == DaysInYear(year)
  {
    assert DaysBeforeMonth(year, 2) == DaysBeforeMonth(year, 1) + DaysInMonth(year, 1);
    assert DaysBeforeMonth(year, 3) == DaysBeforeMonth(year, 2) + DaysInMonth(year, 2);
    assert DaysBeforeMonth(year, 4) == DaysBeforeMonth(year, 3) + DaysInMonth(year, 3);
    assert DaysBeforeMonth(year, 5) == DaysBeforeMonth(year, 4) + DaysInMonth(year, 4);
    assert DaysBeforeMonth(year, 6) == DaysBeforeMonth(year, 5) + DaysInMonth(year, 5);
    assert DaysBeforeMonth(year, 7) == DaysBeforeMonth(year, 6) + DaysInMonth(year, 6);
    assert DaysBeforeMonth(year, 8) == DaysBeforeMonth(year, 7) + DaysInMonth(year, 7);
    assert DaysBeforeMonth(year, 9) == DaysBeforeMonth(year, 8) + DaysInMonth(year, 8);
    assert DaysBeforeMonth(year, 10) == DaysBeforeMonth(year, 9) + DaysInMonth(year, 9);
    assert DaysBeforeMonth(year, 11) == DaysBeforeMonth(year, 10) + DaysInMonth(year, 10);
    assert DaysBeforeMonth(year, 12) == DaysBeforeMonth(year, 11) + DaysInMonth(year, 11);
    assert DaysBeforeMonth(year, 13) == DaysBeforeMonth(year, 12) + DaysInMonth(year, 12);
  }

  /** The month a day number counted from the start of a month falls in, and the day within it. */
  function MonthOf(year: nat, days: nat, month: nat): (r: (nat, nat))
    requires 1 <= month <= 12 && DaysBeforeMonth(year, month) + days < DaysInYear(year)
    ensures month <= r.0 <= 12 && r.1 < DaysInMonth(year, r.0)
    ensures DaysBeforeMonth(year, r.0) + r.1 == DaysBeforeMonth(year, month) + days
    decreases 12 - month
  {
    YearLength(year);
    if days < DaysInMonth(year, month) then (month, days)
    else MonthOf(year, days - DaysInMonth(year, month), month + 1)
  }

  /** The fields of an instant in UTC. */
  function FromInstant(t: nat): (c: Civil)
    ensures IsDate(c) && IsTimeOfDay(c)
  {
    var (year, dayOfYear) := YearOf(t / DAY, 0);
    var (month, dayOfMonth) := MonthOf(year, dayOfYear, 1);
    var seconds := t % DAY / SECOND;
    Civil(year, month, dayOfMonth + 1, seconds / 3600, seconds / 60 % 60, seconds % 60, t % SECOND)
  }

  lemma SecondsSplit(seconds: nat)
    requires seconds < 86400
    ensures (seconds / 3600 * 60 + seconds / 60 % 60) * 60 + seconds % 60 == seconds
  {
  }

  lemma TimeOfFields(t: nat)
    ensures TimeOfDay(FromInstant(t)) == t % DAY
  {
    SecondsSplit(t % DAY / SECOND);
    SecondOfDay(t);
  }

  lemma SecondOfDay(t: nat)
    ensures t % DAY == t % DAY / SECOND * SECOND + t % SECOND
  {
    var day, rest := t / DAY, t % DAY;
    assert t == (day * 86400 + rest / SECOND) * SECOND + rest % SECOND;
    DivUnique(t, SECOND, day * 86400 + rest / SECOND);
  }

  lemma DayOfFields(t: nat)
    ensures DayNumber(FromInstant(t)) == t / DAY
  {
  }

  lemma InstantFromParts(c: Civil, t: nat)
    requires IsDate(c) && DayNumber(c) == t / DAY && TimeOfDay(c) == t % DAY
    ensures Instant(c) == t
  {
  }

  /** The fields determine the instant they were split from. */
  lemma InstantOfFields(t: nat)
    ensures Instant(FromInstant(t)) == t
  {
    TimeOfFields(t);
    DayOfFields(t);
    InstantFromParts(FromInstant(t), t);
  }

  /** The Gregorian rule: of the years before a year, every fourth has a day more, every hundredth has not,
      and every four hundredth has. */
  lemma {:induction false} LeapDays(year: nat)
    ensures DaysBeforeYear(year) == 365 * year + (year + 3) / 4 - (year + 99) / 100 + (year + 399) / 400
  {
    if year > 0 {
      LeapDays(year - 1);
      NextYear(year - 1);
    }
  }

  lemma NextYear(n: nat)
    ensures 365 * (n + 1) + (n + 4) / 4 - (n + 100) / 100 + (n + 400) / 400 ==
      365 * n + (n + 3) / 4 - (n + 99) / 100 + (n + 399) / 400 + DaysInYear(n)
  {
    OneMoreIf(n);
    YearIsLonger(n);
  }

  lemma YearIsLonger(year: nat)
    ensures DaysInYear(year) ==
      365 + (if year % 4 == 0 then 1 else 0) - (if year % 100 == 0 then 1 else 0) + (if year % 400 == 0 then 1 else 0)
  {
    MultiplesOfMultiples(year);
  }

  /** Of one more number, whether it is a multiple of 4, 100 and 400. */
  lemma OneMoreIf(n: nat)
    ensures (n + 4) / 4 == (n + 3) / 4 + if n % 4 == 0 then 1 else 0
    ensures (n + 100) / 100 == (n + 99) / 100 + if n % 100 == 0 then 1 else 0
    ensures (n + 400) / 400 == (n + 399) / 400 + if n % 400 == 0 then 1 else 0
  {
    OneMoreFourth(n);
    OneMoreHundredth(n);
    OneMoreFourHundredth(n);
  }

  lemma OneMoreFourth(n: nat)
    ensures (n + 4) / 4 == (n + 3) / 4 + if n % 4 == 0 then 1 else 0
  {
  }

  lemma OneMoreHundredth(n: nat)
    ensures (n + 100) / 100 == (n + 99) / 100 + if n % 100 == 0 then 1 else 0
  {
  }

  lemma OneMoreFourHundredth(n: nat)
    ensures (n + 400) / 400 == (n + 399) / 400 + if n % 400 == 0 then 1 else 0
  {
  }

  lemma MultiplesOfMultiples(n: nat)
    ensures (n % 400 == 0 ==> n % 100 == 0) && (n % 100 == 0 ==> n % 4 == 0)
  {
    if n % 400 == 0 {
      DivUnique(n, 100, 4 * (n / 400));
    }
    if n % 100 == 0 {
      DivUnique(n, 4, 25 * (n / 100));
    }
  }

  lemma {:induction false} YearsGrow(a: nat, b: nat)
    requires a <= b
    ensures DaysBeforeYear(a) <= DaysBeforeYear(b)
    decreases b
  {
    if a < b {
      YearsGrow(a, b - 1);
    }
  }

  /** The instants of years 0 to 9999. */
  predicate FourDigitYear(t: nat) {
    t / DAY < DaysBeforeYear(10000)
  }

  lemma FourDigitYearIs(t: nat)
    ensures FourDigitYear(t) <==> FromInstant(t).year <= 9999
  {
    var (year, dayOfYear) := YearOf(t / DAY, 0);
    if year <= 9999 {
      YearsGrow(year + 1, 10000);
    } else {
      YearsGrow(10000, year);
    }
  }
}
