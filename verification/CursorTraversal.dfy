/**
 A client that follows the printed cursors: the text of a page's last position comes back with the next
 request and is parsed there.

 A position's time is an instant in nanoseconds and its id the number its UUID's bytes spell, which
 orders UUIDs as the database does.
 */
module CursorTraversal {
  import opened Arithmetic
  import opened Base64
  import opened Calendar
  import opened Keyset
  import opened KeysetCursor
  import opened Wrappers

  // ----- UUIDs as numbers -----

  function Power(n: nat): (p: nat)
    ensures p >= 1
  {
    if n == 0 then 1 else 256 * Power(n - 1)
  }

  /** The number big-endian bytes spell, and the bytes that spell a number. */
  function NumberOf(b: seq<Byte>): nat {
    if b == [] then 0 else NumberOf(b[..|b| - 1]) * 256 + b[|b| - 1]
  }

  function BytesFor(n: nat, width: nat): (b: seq<Byte>)
    ensures |b| == width
  {
    if width == 0 then [] else BytesFor(n / 256, width - 1) + [n % 256]
  }

  lemma {:induction false} BytesOfNumber(b: seq<Byte>)
    ensures NumberOf(b) < Power(|b|) && BytesFor(NumberOf(b), |b|) == b
  {
    if b != [] {
      BytesOfNumber(b[..|b| - 1]);
      assert b == b[..|b| - 1] + [b[|b| - 1]];
    }
  }

  lemma {:induction false} NumberOfBytes(n: nat, width: nat)
    requires n < Power(width)
    ensures NumberOf(BytesFor(n, width)) == n
  {
    if width > 0 {
      NumberOfBytes(n / 256, width - 1);
      var b := BytesFor(n, width);
      assert b[..|b| - 1] == BytesFor(n / 256, width - 1);
    }
  }

  /** Byte by byte from the front. */
  predicate Before(a: seq<Byte>, b: seq<Byte>)
    requires |a| == |b|
  {
    a != [] && (a[0] < b[0] || (a[0] == b[0] && Before(a[1..], b[1..])))
  }

  lemma Ends(b: seq<Byte>)
    requires |b| > 1
    ensures b[..|b| - 1][1..] == b[1..][..|b| - 2] && b[1..][|b| - 2] == b[|b| - 1] && b[..|b| - 1][0] == b[0]
  {
  }

  lemma Scaled(x: int, p: int, q: int, rest: int, low: int)
    requires q == 256 * p
    ensures (x * p + rest) * 256 + low == x * q + (rest * 256 + low)
  {
    MulAdd(256, x * p, rest);
  }

  lemma {:induction false} FromTheFront(b: seq<Byte>)
    requires b != []
    ensures NumberOf(b) == b[0] * Power(|b| - 1) + NumberOf(b[1..])
  {
    if |b| > 1 {
      var front := b[..|b| - 1];
      FromTheFront(front);
      Ends(b);
      Scaled(b[0], Power(|b| - 2), Power(|b| - 1), NumberOf(front[1..]), b[|b| - 1]);
    } else {
      assert b[..0] == [] && b[1..] == [];
    }
  }

  /** The order of UUIDs is that of their numbers. */
  lemma {:induction false} BeforeIsLess(a: seq<Byte>, b: seq<Byte>)
    requires |a| == |b|
    ensures Before(a, b) <==> NumberOf(a) < NumberOf(b)
  {
    if a != [] {
      FromTheFront(a);
      FromTheFront(b);
      BytesOfNumber(a[1..]);
      BytesOfNumber(b[1..]);
      BeforeIsLess(a[1..], b[1..]);
      if a[0] < b[0] {
        LeadingByte(a[0], b[0], Power(|a| - 1));
      } else if b[0] < a[0] {
        LeadingByte(b[0], a[0], Power(|a| - 1));
      }
    }
  }

  lemma LeadingByte(x: int, y: int, p: int)
    requires x < y && p >= 0
    ensures x * p + p <= y * p
  {
    MulMono(p, x + 1, y);
  }

  // ----- Cursors of positions -----

  /** An instant of years 0 to 9999 and a 16-byte id. */
  predicate Printable(key: Key) {
    key.at >= 0 && FourDigitYear(key.at) && key.id < Power(16)
  }

  /** Positions outside that range are not modelled. */
  function CursorOf(key: Key): string {
    if Printable(key) then EncodeCursor(key.at, BytesFor(key.id, 16)) else ""
  }

  /** The position a request's cursor names: none for an empty one, an error for a malformed one. */
  function PositionOf(cursor: string): Option<Option<Key>> {
    if cursor == "" then Some(None)
    else match DecodeCursor(cursor)
      case None => None
      case Some((t, id)) => Some(Some(Key(t, NumberOf(id))))
  }

  lemma PositionOfCursor(key: Key)
    requires Printable(key)
    ensures PositionOf(CursorOf(key)) == Some(Some(key))
  {
    CursorRoundTrip(key.at, BytesFor(key.id, 16));
    NumberOfBytes(key.id, 16);
    EmptyIsNoCursor();
  }

  lemma EmptyIsNoCursor()
    ensures DecodeCursor("") == None
  {
  }

  // ----- Following them -----

  /** The pages a client gets that sends back the printed cursor of each page's last row until there is
      none; a cursor that cannot be parsed is refused. */
  ghost function Follow(printed: Key -> string, parse: string -> Option<Option<Key>>,
                        tables: seq<set<Key>>, cursor: string, limits: seq<nat>): seq<Page>
    requires LimitsFor(limits, tables)
    decreases |tables|
  {
    if tables == [] || parse(cursor).None? then []
    else
      var page := Fetch(tables[0], parse(cursor).value, limits[0]);
      if page.hasMore && page.items != [] then
        [page] + Follow(printed, parse, tables[1..], printed(page.items[|page.items| - 1]), limits[1..])
      else [page]
  }

  ghost predicate AllPrintable(tables: seq<set<Key>>) {
    forall i, key :: 0 <= i < |tables| && key in tables[i] ==> Printable(key)
  }

  ghost predicate RoundTrips(printed: Key -> string, parse: string -> Option<Option<Key>>) {
    forall key :: Printable(key) ==> parse(printed(key)) == Some(Some(key))
  }

  lemma ListedIsPrintable(tables: seq<set<Key>>, cursor: Option<Key>, limit: nat, key: Key)
    requires AllPrintable(tables) && tables != [] && limit > 0 && key in Fetch(tables[0], cursor, limit).items
    ensures Printable(key)
  {
    FetchTakesTheNewest(tables[0], cursor, limit);
  }

  lemma RestOf(tables: seq<set<Key>>, limits: seq<nat>)
    requires tables != [] && LimitsFor(limits, tables) && AllPrintable(tables)
    ensures LimitsFor(limits[1..], tables[1..]) && AllPrintable(tables[1..])
  {
  }

  /** One request: the position its cursor names, the page, and the rest when there is more. */
  lemma FollowOn(printed: Key -> string, parse: string -> Option<Option<Key>>,
                 tables: seq<set<Key>>, cursor: string, limits: seq<nat>, position: Option<Key>)
    requires tables != [] && LimitsFor(limits, tables) && parse(cursor) == Some(position)
    ensures var page := Fetch(tables[0], position, limits[0]);
      Follow(printed, parse, tables, cursor, limits) ==
        if page.hasMore && page.items != [] then
          [page] + Follow(printed, parse, tables[1..], printed(page.items[|page.items| - 1]), limits[1..])
        else [page]
  {
  }

  lemma {:induction false} FollowFrom(printed: Key -> string, parse: string -> Option<Option<Key>>,
                                      tables: seq<set<Key>>, cursor: string, limits: seq<nat>, position: Option<Key>)
    requires LimitsFor(limits, tables) && AllPrintable(tables) && RoundTrips(printed, parse)
    requires parse(cursor) == Some(position)
    ensures Follow(printed, parse, tables, cursor, limits) == Traverse(tables, position, limits)
    decreases |tables|
  {
    if tables != [] {
      var page := Fetch(tables[0], position, limits[0]);
      FetchSize(tables[0], position, limits[0]);
      FollowOn(printed, parse, tables, cursor, limits, position);
      if page.hasMore {
        var last := page.items[limits[0] - 1];
        ListedIsPrintable(tables, position, limits[0], last);
        RestOf(tables, limits);
        FollowFrom(printed, parse, tables[1..], printed(last), limits[1..], Some(last));
      }
    }
  }

  /** Printing and parsing the cursors loses nothing: the client gets the pages of the traversal, whatever
      the table is at each request and whatever limit each asks for. */
  lemma FollowIsTraverse(tables: seq<set<Key>>, limits: seq<nat>)
    requires LimitsFor(limits, tables) && AllPrintable(tables)
    ensures Follow(CursorOf, PositionOf, tables, "", limits) == Traverse(tables, None, limits)
  {
    forall key | Printable(key) ensures PositionOf(CursorOf(key)) == Some(Some(key)) {
      PositionOfCursor(key);
    }
    FollowFrom(CursorOf, PositionOf, tables, "", limits, None);
  }

  /** So end to end: the client sees older and older rows and exactly once each that every request finds. */
  lemma ClientSeesEachLastingRowOnce(tables: seq<set<Key>>, limits: seq<nat>, key: Key)
    requires LimitsFor(limits, tables) && AllPrintable(tables) && forall i :: 0 <= i < |tables| ==> key in tables[i]
    ensures var pages := Follow(CursorOf, PositionOf, tables, "", limits);
      && Descending(Items(pages))
      && (Finished(pages) ==> multiset(Items(pages))[key] == 1)
  {
    FollowIsTraverse(tables, limits);
    TraversalIsDescending(tables, None, limits);
    TraversalMissesNothing(tables, None, limits, key);
    if Finished(Traverse(tables, None, limits)) {
      DescendingListsOnce(Items(Traverse(tables, None, limits)), key);
    }
  }
}
