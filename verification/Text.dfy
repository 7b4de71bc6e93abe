/** Strings as sequences of code points, and the whitespace trimming every entry point applies. */
module Text {

  /** The code points for which unicode.IsSpace holds. */
  predicate IsSpace(c: char) {
    var n := c as int;
    || 0x09 <= n <= 0x0D
    || n in {0x20, 0x85, 0xA0, 0x1680, 0x2028, 0x2029, 0x202F, 0x205F, 0x3000}
    || 0x2000 <= n <= 0x200A
  }

  function TrimLeft(s: string): (r: string)
    ensures r != "" ==> !IsSpace(r[0])
  {
    if s != "" && IsSpace(s[0]) then TrimLeft(s[1..]) else s
  }

  function TrimRight(s: string): (r: string)
    ensures r != "" ==> s != "" && r[0] == s[0] && !IsSpace(r[|r| - 1])
  {
    if s != "" && IsSpace(s[|s| - 1]) then TrimRight(s[..|s| - 1]) else s
  }

  /** No space at either end. */
  predicate IsTrimmed(s: string) {
    s != "" ==> !IsSpace(s[0]) && !IsSpace(s[|s| - 1])
  }

  /** strings.TrimSpace. */
  function TrimSpace(s: string): (r: string)
    ensures IsTrimmed(r)
  {
    TrimRight(TrimLeft(s))
  }

  /** r is what is left of s when n code points are cut off before it, and all after it, and all of them
      are space. */
  ghost predicate LeftOf(s: string, r: string, n: nat) {
    && n + |r| <= |s| && r == s[n..n + |r|]
    && (forall i :: 0 <= i < n ==> IsSpace(s[i]))
    && (forall i :: n + |r| <= i < |s| ==> IsSpace(s[i]))
  }

  lemma {:induction false} TrimLeftCuts(s: string)
    ensures var n := |s| - |TrimLeft(s)|;
      0 <= n && TrimLeft(s) == s[n..] && forall i :: 0 <= i < n ==> IsSpace(s[i])
  {
    if s != "" && IsSpace(s[0]) {
      TrimLeftCuts(s[1..]);
      forall i | 0 <= i < |s| - |TrimLeft(s)| ensures IsSpace(s[i]) {
        assert i > 0 ==> s[i] == s[1..][i - 1];
      }
    }
  }

  lemma {:induction false} TrimRightCuts(s: string)
    ensures TrimRight(s) <= s && forall i :: |TrimRight(s)| <= i < |s| ==> IsSpace(s[i])
  {
    if s != "" && IsSpace(s[|s| - 1]) {
      TrimRightCuts(s[..|s| - 1]);
    }
  }

  lemma TrimSpaceCuts(s: string)
    ensures exists n :: LeftOf(s, TrimSpace(s), n)
  {
    TrimLeftCuts(s);
    TrimRightCuts(TrimLeft(s));
    var n, left, r := |s| - |TrimLeft(s)|, TrimLeft(s), TrimSpace(s);
    forall i | n + |r| <= i < |s| ensures IsSpace(s[i]) {
      assert s[i] == left[i - n];
    }
    assert LeftOf(s, r, n);
  }

  /** Trimming cuts off all the space at either end and nothing else. */
  lemma TrimSpaceIff(s: string, r: string)
    ensures TrimSpace(s) == r <==> IsTrimmed(r) && exists n :: LeftOf(s, r, n)
  {
    TrimSpaceCuts(s);
    if n :| IsTrimmed(r) && LeftOf(s, r, n) {
      var m :| LeftOf(s, TrimSpace(s), m);
      OneWayToTrim(s, TrimSpace(s), m, r, n);
    }
  }

  lemma NothingLeftIff(s: string, r: string, n: nat)
    requires LeftOf(s, r, n) && IsTrimmed(r)
    ensures r == "" <==> forall i :: 0 <= i < |s| ==> IsSpace(s[i])
  {
    if r != "" {
      assert s[n] == r[0];
    }
  }

  lemma OneWayToTrim(s: string, a: string, m: nat, b: string, n: nat)
    requires LeftOf(s, a, m) && LeftOf(s, b, n) && IsTrimmed(a) && IsTrimmed(b)
    ensures a == b
  {
    NothingLeftIff(s, a, m);
    NothingLeftIff(s, b, n);
    if a != "" && b != "" {
      assert a[0] == s[m] && b[0] == s[n];
      assert a[|a| - 1] == s[m + |a| - 1] && b[|b| - 1] == s[n + |b| - 1];
    }
  }

  // ----- Lengths in bytes -----

  /** The length in bytes that Go's len reports. */
  function Utf8Length(s: string): nat {
    if s == "" then 0
    else
      var n := s[0] as int;
      (if n < 0x80 then 1 else if n < 0x800 then 2 else if n < 0x1_0000 then 3 else 4) + Utf8Length(s[1..])
  }

  /** The bytes of one code point, section 3 of RFC 3629. */
  function Utf8Of(c: char): seq<int> {
    var n := c as int;
    if n <= 0x7F then [n]
    else if n <= 0x7FF then [0xC0 + n / 0x40, 0x80 + n % 0x40]
    else if n <= 0xFFFF then [0xE0 + n / 0x1000, 0x80 + n / 0x40 % 0x40, 0x80 + n % 0x40]
    else [0xF0 + n / 0x4_0000, 0x80 + n / 0x1000 % 0x40, 0x80 + n / 0x40 % 0x40, 0x80 + n % 0x40]
  }

  function Utf8(s: string): seq<int> {
    if s == "" then [] else Utf8Of(s[0]) + Utf8(s[1..])
  }

  /** The code point the bytes begin with and the number of bytes it takes, by the first of them. */
  function FirstCode(bytes: seq<int>): (int, nat)
    requires bytes != []
  {
    if bytes[0] < 0xC0 || |bytes| < 2 then (bytes[0], 1)
    else if bytes[0] < 0xE0 || |bytes| < 3 then ((bytes[0] - 0xC0) * 0x40 + bytes[1] - 0x80, 2)
    else if bytes[0] < 0xF0 || |bytes| < 4 then
      ((bytes[0] - 0xE0) * 0x1000 + (bytes[1] - 0x80) * 0x40 + bytes[2] - 0x80, 3)
    else
      ((bytes[0] - 0xF0) * 0x4_0000 + (bytes[1] - 0x80) * 0x1000 + (bytes[2] - 0x80) * 0x40 + bytes[3] - 0x80, 4)
  }

  lemma FirstCodeOf(c: char, rest: seq<int>)
    ensures FirstCode(Utf8Of(c) + rest) == (c as int, |Utf8Of(c)|)
  {
    var n := c as int;
    assert n == n / 0x40 * 0x40 + n % 0x40;
    assert n / 0x40 == n / 0x40 / 0x40 * 0x40 + n / 0x40 % 0x40 && n / 0x40 / 0x40 == n / 0x1000;
    assert n / 0x1000 == n / 0x1000 / 0x40 * 0x40 + n / 0x1000 % 0x40 && n / 0x1000 / 0x40 == n / 0x4_0000;
  }

  /** That length is the length of the UTF-8 form, which tells every two texts apart. */
  lemma {:induction false} Utf8TellsApart(s: string, t: string)
    ensures |Utf8(s)| == Utf8Length(s)
    ensures Utf8(s) == Utf8(t) ==> s == t
  {
    if s != "" {
      Utf8TellsApart(s[1..], if t == "" then "" else t[1..]);
      FirstCodeOf(s[0], Utf8(s[1..]));
    }
    if s != "" && t != "" && Utf8(s) == Utf8(t) {
      FirstCodeOf(t[0], Utf8(t[1..]));
      assert Utf8(s)[|Utf8Of(s[0])|..] == Utf8(s[1..]) && Utf8(t)[|Utf8Of(t[0])|..] == Utf8(t[1..]);
      assert s == [s[0]] + s[1..] && t == [t[0]] + t[1..];
    }
  }
}
