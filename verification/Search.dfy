/**
 The search filter of the list queries: the LIKE matcher of section 9.7.1 of the PostgreSQL manual,
 the escaping of a user's term, and why a list filtered by that pattern is filtered by substring.
 */
module Search {
  import opened Text
  import opened Wrappers

  const ESCAPE: char := '\\'

  predicate IsMeta(c: char) {
    c == ESCAPE || c == '%' || c == '_'
  }

  /** The pattern does not end in a lone escape, which the database would refuse. */
  predicate WellFormed(pattern: string) {
    if pattern == "" then true
    else if pattern[0] == ESCAPE then |pattern| > 1 && WellFormed(pattern[2..])
    else WellFormed(pattern[1..])
  }

  /** text LIKE pattern, with backslash as the escape character. */
  predicate Like(pattern: string, text: string)
    requires WellFormed(pattern)
    decreases |pattern|, |text|
  {
    if pattern == "" then text == ""
    else if pattern[0] == '%' then Like(pattern[1..], text) || (text != "" && Like(pattern, text[1..]))
    else if text == "" then false
    else if pattern[0] == ESCAPE then text[0] == pattern[1] && Like(pattern[2..], text[1..])
    else (pattern[0] == '_' || text[0] == pattern[0]) && Like(pattern[1..], text[1..])
  }

  function Fold(fold: char -> char, s: string): (r: string)
    ensures |r| == |s| && forall i :: 0 <= i < |s| ==> r[i] == fold(s[i])
  {
    if s == "" then "" else [fold(s[0])] + Fold(fold, s[1..])
  }

  /** Folding case neither makes nor unmakes a wildcard or an escape. */
  ghost predicate IsCaseFolding(fold: char -> char) {
    forall c :: (IsMeta(c) || IsMeta(fold(c))) ==> fold(c) == c
  }

  /** text ILIKE pattern: LIKE on both sides with case folded. */
  predicate ILike(fold: char -> char, pattern: string, text: string)
    requires WellFormed(Fold(fold, pattern))
  {
    Like(Fold(fold, pattern), Fold(fold, text))
  }

  /** escapeLikePattern: one pass over the characters, each metacharacter escaped. */
  function EscapeLike(s: string): string {
    if s == "" then ""
    else (if IsMeta(s[0]) then [ESCAPE, s[0]] else [s[0]]) + EscapeLike(s[1..])
  }

  /** What the list query is given: the escaped term, trimmed, or NULL when nothing is left. */
  function SearchParam(search: string): Option<string> {
    var value := TrimSpace(EscapeLike(search));
    if value == "" then None else Some(value)
  }

  /** search IS NULL OR text ILIKE '%' || search || '%'. */
  predicate Matches(fold: char -> char, search: Option<string>, text: string)
    requires search.Some? ==> WellFormed(Fold(fold, "%" + search.value + "%"))
  {
    search.None? || ILike(fold, "%" + search.value + "%", text)
  }

  ghost predicate Contains(text: string, term: string) {
    exists i :: 0 <= i <= |text| && term <= text[i..]
  }

  // ----- Escaped terms match literally -----

  lemma {:induction false} EscapedIsWellFormed(term: string, rest: string)
    requires WellFormed(rest)
    ensures WellFormed(EscapeLike(term) + rest)
  {
    if term == "" {
      assert EscapeLike(term) + rest == rest;
    } else {
      EscapedIsWellFormed(term[1..], rest);
      EscapedHead(term, rest);
    }
  }

  lemma EscapedHead(term: string, rest: string)
    requires term != ""
    ensures var p := EscapeLike(term) + rest;
      if IsMeta(term[0]) then
        |p| >= 2 && p[0] == ESCAPE && p[1] == term[0] && p[2..] == EscapeLike(term[1..]) + rest
      else
        |p| >= 1 && p[0] == term[0] && p[1..] == EscapeLike(term[1..]) + rest
  {
    var head := if IsMeta(term[0]) then [ESCAPE, term[0]] else [term[0]];
    HeadOfConcat(head, EscapeLike(term[1..]), rest);
  }

  lemma HeadOfConcat<T>(head: seq<T>, middle: seq<T>, rest: seq<T>)
    ensures var p := head + middle + rest;
      && p == head + (middle + rest) && p[|head|..] == middle + rest
      && forall i :: 0 <= i < |head| ==> p[i] == head[i]
  {
    assert head + middle + rest == head + (middle + rest);
  }

  lemma {:induction false} EscapedMatchesLiterally(term: string, rest: string, text: string)
    requires WellFormed(rest)
    ensures WellFormed(EscapeLike(term) + rest)
    ensures Like(EscapeLike(term) + rest, text) <==> term <= text && Like(rest, text[|term|..])
  {
    EscapedIsWellFormed(term, rest);
    if term == "" {
      assert EscapeLike(term) + rest == rest && text[0..] == text;
    } else {
      EscapedHead(term, rest);
      if text != "" {
        EscapedMatchesLiterally(term[1..], rest, text[1..]);
        assert term <= text <==> term[0] == text[0] && term[1..] <= text[1..];
        assert term <= text ==> text[1..][|term| - 1..] == text[|term|..];
      }
    }
  }

  lemma {:induction false} PercentSkips(rest: string, text: string)
    requires WellFormed(rest)
    ensures WellFormed("%" + rest)
    ensures Like("%" + rest, text) <==> exists i :: 0 <= i <= |text| && Like(rest, text[i..])
    decreases |text|
  {
    var p := "%" + rest;
    assert p[1..] == rest;
    assert text[0..] == text;
    if text != "" {
      PercentSkips(rest, text[1..]);
      if i :| 0 <= i <= |text| && Like(rest, text[i..]) {
        assert i > 0 ==> text[1..][i - 1..] == text[i..];
      }
      if i :| 0 <= i < |text| && Like(rest, text[1..][i..]) {
        assert text[1..][i..] == text[i + 1..];
      }
    }
  }

  lemma {:induction false} PercentMatchesAll(text: string)
    ensures Like("%", text)
  {
    assert "%"[1..] == "";
    if text != "" {
      PercentMatchesAll(text[1..]);
    }
  }

  /** The wrapped pattern of an escaped term matches exactly the texts that contain the term. */
  lemma EscapedIsSubstring(term: string, text: string)
    ensures WellFormed("%" + EscapeLike(term) + "%")
    ensures Like("%" + EscapeLike(term) + "%", text) <==> Contains(text, term)
  {
    var tail := EscapeLike(term) + "%";
    assert "%" + EscapeLike(term) + "%" == "%" + tail;
    EscapedMatchesLiterally(term, "%", text);
    PercentSkips(tail, text);
    forall i | 0 <= i <= |text| ensures Like(tail, text[i..]) <==> term <= text[i..] {
      EscapedMatchesLiterally(term, "%", text[i..]);
      if term <= text[i..] {
        PercentMatchesAll(text[i..][|term|..]);
      }
    }
  }

  /** A pattern of plain characters and a final % matches exactly the texts with that prefix. */
  lemma PlainPrefix(prefix: string, text: string)
    requires forall i :: 0 <= i < |prefix| ==> !IsMeta(prefix[i])
    ensures WellFormed(prefix + "%")
    ensures Like(prefix + "%", text) <==> prefix <= text
  {
    EscapePlain(prefix);
    EscapedMatchesLiterally(prefix, "%", text);
    if prefix <= text {
      PercentMatchesAll(text[|prefix|..]);
    }
  }

  lemma {:induction false} EscapePlain(s: string)
    requires forall i :: 0 <= i < |s| ==> !IsMeta(s[i])
    ensures EscapeLike(s) == s
  {
    if s != "" {
      EscapePlain(s[1..]);
    }
  }

  // ----- The whole pipeline -----

  lemma {:induction false} TrimLeftEscaped(s: string)
    ensures TrimLeft(EscapeLike(s)) == EscapeLike(TrimLeft(s))
  {
    if s != "" && IsSpace(s[0]) {
      TrimLeftEscaped(s[1..]);
      assert EscapeLike(s)[1..] == EscapeLike(s[1..]);
    }
  }

  lemma {:induction false} EscapeConcat(a: string, b: string)
    ensures EscapeLike(a + b) == EscapeLike(a) + EscapeLike(b)
  {
    if a == "" {
      assert a + b == b;
    } else {
      EscapeConcat(a[1..], b);
      assert (a + b)[1..] == a[1..] + b;
      HeadOfConcat(if IsMeta(a[0]) then [ESCAPE, a[0]] else [a[0]], EscapeLike(a[1..]), EscapeLike(b));
    }
  }

  lemma {:induction false} TrimRightEscaped(s: string)
    ensures TrimRight(EscapeLike(s)) == EscapeLike(TrimRight(s))
  {
    if s != "" {
      var front, last := s[..|s| - 1], s[|s| - 1];
      assert s == front + [last];
      EscapeConcat(front, [last]);
      var escaped := if IsMeta(last) then [ESCAPE, last] else [last];
      assert EscapeLike([last]) == escaped + EscapeLike([]);
      assert EscapeLike(s) == EscapeLike(front) + escaped;
      if IsSpace(last) {
        TrimRightEscaped(front);
        assert EscapeLike(s)[..|EscapeLike(s)| - 1] == EscapeLike(front);
      }
    }
  }

  /** Escaping and trimming commute, so the query gets the escaped trimmed term. */
  lemma SearchParamIs(search: string)
    ensures SearchParam(search) == if TrimSpace(search) == "" then None else Some(EscapeLike(TrimSpace(search)))
  {
    TrimLeftEscaped(search);
    TrimRightEscaped(TrimLeft(search));
  }

  lemma {:induction false} FoldCommutes(fold: char -> char, s: string)
    requires IsCaseFolding(fold)
    ensures Fold(fold, EscapeLike(s)) == EscapeLike(Fold(fold, s))
  {
    if s != "" {
      FoldCommutes(fold, s[1..]);
      assert Fold(fold, s)[1..] == Fold(fold, s[1..]);
      assert IsMeta(ESCAPE);
      FoldConcat(fold, if IsMeta(s[0]) then [ESCAPE, s[0]] else [s[0]], EscapeLike(s[1..]));
    }
  }

  lemma FoldConcat(fold: char -> char, a: string, b: string)
    ensures Fold(fold, a + b) == Fold(fold, a) + Fold(fold, b)
  {
  }

  /** For every term and every text, the filter the query applies is "the text contains the trimmed
      term, case aside"; a blank term filters nothing out. */
  lemma SearchIsSubstring(fold: char -> char, search: string, text: string)
    requires IsCaseFolding(fold)
    ensures var param := SearchParam(search);
      && (param.None? <==> TrimSpace(search) == "")
      && (param.Some? ==> WellFormed(Fold(fold, "%" + param.value + "%")))
      && (Matches(fold, param, text) <==> Contains(Fold(fold, text), Fold(fold, TrimSpace(search))))
  {
    var term := TrimSpace(search);
    SearchParamIs(search);
    if term == "" {
      assert Fold(fold, term) <= Fold(fold, text)[0..];
    } else {
      var escaped := EscapeLike(term);
      assert IsMeta('%');
      FoldConcat(fold, "%" + escaped, "%");
      FoldConcat(fold, "%", escaped);
      FoldCommutes(fold, term);
      assert Fold(fold, "%") == "%";
      EscapedIsSubstring(Fold(fold, term), Fold(fold, text));
    }
  }

  /** What the escaping is for: as it stands, a search for an underscore would find every text but the
      empty one. */
  lemma UnescapedFindsTooMuch(text: string)
    ensures WellFormed("%_%") && (Like("%_%", text) <==> text != "")
  {
    assert "%_%" == "%" + "_%";
    PercentSkips("_%", text);
    forall i | 0 <= i <= |text| ensures Like("_%", text[i..]) <==> i < |text| {
      assert "_%"[1..] == "%";
      if i < |text| {
        PercentMatchesAll(text[i..][1..]);
      }
    }
    if text != "" {
      assert Like("_%", text[0..]);
    }
  }
}
