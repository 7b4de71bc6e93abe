/**
 Keyset pages over rows ordered newest first by (created_at, id): what one page query returns, and
 what a client collects by following the cursor while the table changes underneath it.
 */
module Keyset {
  import opened Arithmetic
  import opened Wrappers

  /** The (created_at, id) position of a row. */
  datatype Key = Key(at: int, id: nat)

  /** a comes before b under ORDER BY created_at DESC, id DESC. */
  predicate Newer(a: Key, b: Key) {
    b.at < a.at || (b.at == a.at && b.id < a.id)
  }

  /** The cursor condition of the page queries: no cursor, or strictly older than it. */
  predicate IsPast(cursor: Option<Key>, key: Key) {
    cursor.None? || key.at < cursor.value.at || (key.at == cursor.value.at && key.id < cursor.value.id)
  }

  function Past(s: set<Key>, cursor: Option<Key>): set<Key> {
    set key | key in s && IsPast(cursor, key)
  }

  ghost predicate Descending(q: seq<Key>) {
    forall i, j :: 0 <= i < j < |q| ==> Newer(q[i], q[j])
  }

  predicate IsNewest(s: set<Key>, key: Key) {
    key in s && forall other :: other in s && other != key ==> Newer(key, other)
  }

  lemma {:induction false} NewestExists(s: set<Key>)
    requires s != {}
    ensures exists key :: IsNewest(s, key)
    decreases |s|
  {
    var x :| x in s;
    var rest := s - {x};
    if rest == {} {
      assert s == {x};
      assert IsNewest(s, x);
    } else {
      NewestExists(rest);
      var y :| IsNewest(rest, y);
      assert forall other :: other in s ==> other == x || other in rest;
      if Newer(x, y) {
        assert IsNewest(s, x);
      } else {
        assert IsNewest(s, y);
      }
    }
  }

  ghost function Newest(s: set<Key>): (key: Key)
    requires s != {}
    ensures IsNewest(s, key)
  {
    NewestExists(s);
    var key :| IsNewest(s, key); key
  }

  /** The whole set, newest first. */
  ghost function Sorted(s: set<Key>): (q: seq<Key>)
    ensures |q| == |s|
    decreases |s|
  {
    if s == {} then [] else
      var key := Newest(s);
      [key] + Sorted(s - {key})
  }

  lemma {:induction false} SortedIsSorted(s: set<Key>)
    ensures Descending(Sorted(s))
    ensures forall key :: key in Sorted(s) <==> key in s
    decreases |s|
  {
    if s != {} {
      var rest := Sorted(s - {Newest(s)});
      SortedIsSorted(s - {Newest(s)});
      assert forall key :: key in rest ==> Newer(Newest(s), key);
      assert forall j :: 0 <= j < |rest| ==> rest[j] in rest;
    }
  }

  lemma SameMembersEmpty<T>(p: seq<T>, q: seq<T>)
    requires forall x :: x in p <==> x in q
    ensures p == [] <==> q == []
  {
    assert p == [] || p[0] in q;
    assert q == [] || q[0] in p;
  }

  /** There is only one way to list a set newest first. */
  lemma {:induction false} SortedIsUnique(p: seq<Key>, q: seq<Key>)
    requires Descending(p) && Descending(q)
    requires forall key :: key in p <==> key in q
    ensures p == q
  {
    SameMembersEmpty(p, q);
    if p != [] {
      assert p[0] in q && q[0] in p;
      assert p[0] == q[0];
      forall key ensures key in p[1..] <==> key in q[1..] {
        if key in p[1..] {
          var i :| 0 < i < |p| && p[i] == key;
          assert key in q && key != q[0];
        }
        if key in q[1..] {
          var i :| 0 < i < |q| && q[i] == key;
          assert key in p && key != p[0];
        }
      }
      SortedIsUnique(p[1..], q[1..]);
      assert p == [p[0]] + p[1..] && q == [q[0]] + q[1..];
    }
  }

  function Take<T>(q: seq<T>, n: nat): seq<T> {
    if |q| <= n then q else q[..n]
  }

  datatype Page = Page(items: seq<Key>, hasMore: bool)

  /** One page: the query is asked for a probe row too, which is cut off and reported as hasMore. */
  ghost function Fetch(s: set<Key>, cursor: Option<Key>, limit: nat): Page {
    var rows := Take(Sorted(Past(s, cursor)), limit + 1);
    if |rows| > limit then Page(rows[..limit], true) else Page(rows, false)
  }

  /** What a prefix of a newest-first list leaves out is older than the prefix's last element. */
  lemma CutDescending(all: seq<Key>, n: nat, key: Key)
    requires Descending(all) && 0 < n < |all| && key in all && key !in all[..n]
    ensures Newer(all[n - 1], key)
  {
    assert all == all[..n] + all[n..];
    var i :| 0 <= i < |all[n..]| && all[n..][i] == key;
    assert key == all[n + i];
  }

  lemma CutIsNewest(s: set<Key>, all: seq<Key>, limit: nat)
    requires limit > 0 && Descending(all) && |all| == |s| && forall key :: key in all <==> key in s
    ensures |all| > limit ==> Take(all, limit + 1)[..limit] == all[..limit]
    ensures var items := Take(all, limit);
      && Descending(items) && (forall key :: key in items ==> key in s)
      && (forall key :: key in s && key !in items ==> |all| > limit && Newer(items[limit - 1], key))
  {
    if |all| > limit {
      assert all == all[..limit] + all[limit..];
      forall key | key in s && key !in all[..limit] ensures Newer(all[limit - 1], key) {
        CutDescending(all, limit, key);
      }
    }
  }

  lemma FetchSize(s: set<Key>, cursor: Option<Key>, limit: nat)
    requires limit > 0
    ensures var page := Fetch(s, cursor, limit);
      && (page.hasMore <==> |Past(s, cursor)| > limit)
      && (page.hasMore ==> |page.items| == limit)
  {
  }

  /** A page holds the newest rows past the cursor, newest first; what it leaves out is older than its
      last row. */
  lemma FetchTakesTheNewest(s: set<Key>, cursor: Option<Key>, limit: nat)
    requires limit > 0
    ensures var page := Fetch(s, cursor, limit);
      && page.items == Take(Sorted(Past(s, cursor)), limit)
      && Descending(page.items)
      && (forall key :: key in page.items ==> key in Past(s, cursor))
      && (forall key :: key in Past(s, cursor) && key !in page.items ==>
           page.hasMore && |page.items| == limit && Newer(page.items[limit - 1], key))
  {
    SortedIsSorted(Past(s, cursor));
    CutIsNewest(Past(s, cursor), Sorted(Past(s, cursor)), limit);
  }

  function NewerIn(s: set<Key>, key: Key): set<Key> {
    set other | other in s && Newer(other, key)
  }

  /** A row stands where the number of newer rows says. */
  lemma {:induction false} RankIsNewer(s: set<Key>, key: Key, i: nat)
    requires i < |s| && Sorted(s)[i] == key
    ensures |NewerIn(s, key)| == i
    decreases i
  {
    var first := Newest(s);
    SortedIsSorted(s);
    if i == 0 {
      assert NewerIn(s, key) == {};
    } else {
      assert Newer(Sorted(s)[0], Sorted(s)[i]);
      RankIsNewer(s - {first}, key, i - 1);
      assert NewerIn(s, key) == NewerIn(s - {first}, key) + {first};
    }
  }

  lemma NewerThanItself(keys: set<Key>, key: Key)
    ensures NewerIn(keys + {key}, key) == NewerIn(keys, key)
  {
  }

  /** A row is on the first page exactly when fewer rows than the page holds are newer. */
  lemma OnFirstPageIff(s: set<Key>, key: Key, limit: nat)
    requires limit > 0 && key in s
    ensures key in Fetch(s, None, limit).items <==> |NewerIn(s, key)| < limit
  {
    FetchTakesTheNewest(s, None, limit);
    SortedIsSorted(s);
    assert Past(s, None) == s;
    var i :| 0 <= i < |s| && Sorted(s)[i] == key;
    RankIsNewer(s, key, i);
    if i < limit {
      assert Take(Sorted(s), limit)[i] == key;
    }
    if key in Take(Sorted(s), limit) {
      var j :| 0 <= j < |Take(Sorted(s), limit)| && Sorted(s)[j] == key;
      RankIsNewer(s, key, j);
    }
  }

  /** Each request asks for at least one row. */
  predicate LimitsFor<T>(limits: seq<nat>, tables: seq<T>) {
    |limits| == |tables| && forall i :: 0 <= i < |limits| ==> limits[i] > 0
  }

  /** The pages a client gets by following the cursor, page i being served from tables[i] with limits[i]. */
  ghost function Traverse(tables: seq<set<Key>>, cursor: Option<Key>, limits: seq<nat>): (pages: seq<Page>)
    requires LimitsFor(limits, tables)
    ensures |pages| <= |tables|
    decreases |tables|
  {
    if tables == [] then [] else
      var page := Fetch(tables[0], cursor, limits[0]);
      if page.hasMore then
        FetchSize(tables[0], cursor, limits[0]);
        [page] + Traverse(tables[1..], Some(page.items[limits[0] - 1]), limits[1..])
      else [page]
  }

  ghost function Items(pages: seq<Page>): seq<Key> {
    if pages == [] then [] else pages[0].items + Items(pages[1..])
  }

  /** The client has seen a page with no next cursor. */
  ghost predicate Finished(pages: seq<Page>) {
    pages != [] && !pages[|pages| - 1].hasMore
  }

  lemma DescendingConcat(p: seq<Key>, q: seq<Key>)
    requires Descending(p) && Descending(q)
    requires p != [] ==> forall key :: key in q ==> Newer(p[|p| - 1], key)
    ensures Descending(p + q)
  {
    forall i, j | 0 <= i < j < |p + q| ensures Newer((p + q)[i], (p + q)[j]) {
      if i < |p| <= j {
        assert (p + q)[j] in q && Newer(p[|p| - 1], (p + q)[j]);
        assert i == |p| - 1 || Newer(p[i], p[|p| - 1]);
      }
    }
  }

  ghost predicate AllPast(items: seq<Key>, cursor: Option<Key>) {
    forall key :: key in items ==> IsPast(cursor, key)
  }

  lemma PageDescends(s: set<Key>, cursor: Option<Key>, limit: nat)
    requires limit > 0
    ensures Descending(Fetch(s, cursor, limit).items) && AllPast(Fetch(s, cursor, limit).items, cursor)
  {
    FetchTakesTheNewest(s, cursor, limit);
  }

  /** A page, and then rows past its last one. */
  lemma DescendOn(items: seq<Key>, rest: seq<Key>, cursor: Option<Key>)
    requires items != [] && Descending(items) && Descending(rest) && AllPast(items, cursor)
    requires AllPast(rest, Some(items[|items| - 1]))
    ensures Descending(items + rest) && AllPast(items + rest, cursor)
  {
    var last := items[|items| - 1];
    assert last in items;
    DescendingConcat(items, rest);
  }

  /** Newest first, and all past the cursor. */
  ghost predicate ListsPast(items: seq<Key>, cursor: Option<Key>) {
    Descending(items) && AllPast(items, cursor)
  }

  lemma ListsPastOn(tables: seq<set<Key>>, cursor: Option<Key>, limits: seq<nat>, page: Page, last: Key, rest: seq<Key>)
    requires LimitsFor(limits, tables) && tables != [] && page == Fetch(tables[0], cursor, limits[0]) && page.hasMore
    requires |page.items| == limits[0] && last == page.items[limits[0] - 1] && ListsPast(rest, Some(last))
    ensures ListsPast(page.items + rest, cursor)
  {
    PageDescends(tables[0], cursor, limits[0]);
    DescendOn(page.items, rest, cursor);
  }

  /** Whatever happens to the table between pages, a traversal lists strictly older and older rows past the
      cursor, so none twice. */
  lemma {:induction false} TraversalIsDescending(tables: seq<set<Key>>, cursor: Option<Key>, limits: seq<nat>)
    requires LimitsFor(limits, tables)
    ensures ListsPast(Items(Traverse(tables, cursor, limits)), cursor)
    decreases |tables|
  {
    if tables != [] {
      var page := Fetch(tables[0], cursor, limits[0]);
      if page.hasMore {
        TraverseOn(tables, cursor, limits);
        var last := page.items[limits[0] - 1];
        TraversalIsDescending(tables[1..], Some(last), limits[1..]);
        ListsPastOn(tables, cursor, limits, page, last, Items(Traverse(tables[1..], Some(last), limits[1..])));
      } else {
        LastPage(tables, cursor, limits);
        LastPageIsItsItems(tables[0], cursor, limits[0]);
        PageDescends(tables[0], cursor, limits[0]);
      }
    }
  }

  lemma LastPageIsItsItems(s: set<Key>, cursor: Option<Key>, limit: nat)
    requires limit > 0 && !Fetch(s, cursor, limit).hasMore
    ensures Fetch(s, cursor, limit).items == Sorted(Past(s, cursor))
  {
    FetchSize(s, cursor, limit);
  }

  /** Each listed row was in the table its page was read from. */
  lemma {:induction false} PagesComeFromTheirTables(tables: seq<set<Key>>, cursor: Option<Key>, limits: seq<nat>, i: nat, key: Key)
    requires LimitsFor(limits, tables)
    requires i < |Traverse(tables, cursor, limits)| && key in Traverse(tables, cursor, limits)[i].items
    ensures key in tables[i]
    decreases i
  {
    if i == 0 {
      PageIsFromTable(tables[0], cursor, limits[0], key);
    } else {
      var last := LaterPage(tables, cursor, limits, i);
      PagesComeFromTheirTables(tables[1..], Some(last), limits[1..], i - 1, key);
    }
  }

  lemma LaterPage(tables: seq<set<Key>>, cursor: Option<Key>, limits: seq<nat>, i: nat) returns (last: Key)
    requires LimitsFor(limits, tables) && 0 < i < |Traverse(tables, cursor, limits)|
    ensures LimitsFor(limits[1..], tables[1..]) && i - 1 < |Traverse(tables[1..], Some(last), limits[1..])|
    ensures Traverse(tables, cursor, limits)[i] == Traverse(tables[1..], Some(last), limits[1..])[i - 1]
  {
    FetchSize(tables[0], cursor, limits[0]);
    last := Fetch(tables[0], cursor, limits[0]).items[limits[0] - 1];
  }

  lemma PageIsFromTable(s: set<Key>, cursor: Option<Key>, limit: nat, key: Key)
    requires limit > 0 && key in Fetch(s, cursor, limit).items
    ensures key in s
  {
    FetchTakesTheNewest(s, cursor, limit);
  }

  /** A row in the table whenever a page was read is listed, unless the client stopped before it. */
  lemma {:induction false} TraversalMissesNothing(tables: seq<set<Key>>, cursor: Option<Key>, limits: seq<nat>, key: Key)
    requires LimitsFor(limits, tables) && IsPast(cursor, key)
    requires forall i :: 0 <= i < |tables| ==> key in tables[i]
    ensures var pages := Traverse(tables, cursor, limits);
      Finished(pages) ==> key in Items(pages)
    decreases |tables|
  {
    if tables != [] {
      var page := Fetch(tables[0], cursor, limits[0]);
      FetchTakesTheNewest(tables[0], cursor, limits[0]);
      if page.hasMore {
        TraverseOn(tables, cursor, limits);
        if key !in page.items {
          TraversalMissesNothing(tables[1..], Some(page.items[limits[0] - 1]), limits[1..], key);
        }
      } else {
        LastPage(tables, cursor, limits);
      }
    }
  }

  /** Full pages, then a last one that is not followed by another. */
  function PageCount(n: nat, limit: nat): (pages: nat)
    requires limit > 0
    ensures pages >= 1
  {
    if n <= limit then 1 else 1 + PageCount(n - limit, limit)
  }

  lemma {:induction false} PageCountIsCeiling(n: nat, limit: nat)
    requires limit > 0
    ensures PageCount(n, limit) == if n == 0 then 1 else (n + limit - 1) / limit
  {
    DivStep(n + limit - 1, limit);
    DivStep(n - 1, limit);
    if n > limit {
      PageCountIsCeiling(n - limit, limit);
    }
  }

  /** The rows past a page's last row are the rows past the cursor that the page did not list. */
  lemma PastThePage(s: set<Key>, cursor: Option<Key>, limit: nat)
    requires limit > 0 && Fetch(s, cursor, limit).hasMore
    ensures var page := Fetch(s, cursor, limit);
      && Sorted(Past(s, cursor)) == page.items + Sorted(Past(s, Some(page.items[limit - 1])))
      && |Past(s, Some(page.items[limit - 1]))| == |Past(s, cursor)| - limit
  {
    var page := Fetch(s, cursor, limit);
    FetchSize(s, cursor, limit);
    FetchTakesTheNewest(s, cursor, limit);
    var last := page.items[limit - 1];
    var rest := Sorted(Past(s, Some(last)));
    SortedIsSorted(Past(s, cursor));
    SortedIsSorted(Past(s, Some(last)));
    DescendingConcat(page.items, rest);
    forall key ensures key in page.items + rest <==> key in Sorted(Past(s, cursor)) {
      assert last in page.items && IsPast(cursor, last);
    }
    SortedIsUnique(Sorted(Past(s, cursor)), page.items + rest);
  }

  lemma TraverseOn(tables: seq<set<Key>>, cursor: Option<Key>, limits: seq<nat>)
    requires LimitsFor(limits, tables) && tables != [] && Fetch(tables[0], cursor, limits[0]).hasMore
    ensures LimitsFor(limits[1..], tables[1..]) && |Fetch(tables[0], cursor, limits[0]).items| == limits[0]
    ensures var page, pages := Fetch(tables[0], cursor, limits[0]), Traverse(tables, cursor, limits);
      var rest := Traverse(tables[1..], Some(page.items[limits[0] - 1]), limits[1..]);
      && |pages| == 1 + |rest| && Items(pages) == page.items + Items(rest)
      && (Finished(pages) <==> Finished(rest))
  {
    FetchSize(tables[0], cursor, limits[0]);
    var page, pages := Fetch(tables[0], cursor, limits[0]), Traverse(tables, cursor, limits);
    assert pages[1..] == Traverse(tables[1..], Some(page.items[limits[0] - 1]), limits[1..]);
  }

  /** Every page is served from the same table. */
  ghost predicate Unchanging(tables: seq<set<Key>>, s: set<Key>) {
    forall i :: 0 <= i < |tables| ==> tables[i] == s
  }

  lemma UnchangingTail(tables: seq<set<Key>>, s: set<Key>)
    requires Unchanging(tables, s) && tables != []
    ensures tables[0] == s && Unchanging(tables[1..], s)
  {
  }

  lemma OnePageMore(s: set<Key>, cursor: Option<Key>, limit: nat)
    requires limit > 0 && Fetch(s, cursor, limit).hasMore
    ensures |Fetch(s, cursor, limit).items| == limit
    ensures var next := Fetch(s, cursor, limit).items[limit - 1];
      PageCount(|Past(s, cursor)|, limit) == 1 + PageCount(|Past(s, Some(next))|, limit)
  {
    FetchSize(s, cursor, limit);
    PastThePage(s, cursor, limit);
  }

  /** Over a table that does not change, whatever each request's limit, a completed traversal lists the rows
      past the cursor, all of them and newest first. */
  lemma {:induction false} StaticItems(s: set<Key>, tables: seq<set<Key>>, cursor: Option<Key>, limits: seq<nat>)
    requires LimitsFor(limits, tables) && Unchanging(tables, s) && Finished(Traverse(tables, cursor, limits))
    ensures Items(Traverse(tables, cursor, limits)) == Sorted(Past(s, cursor))
    decreases |tables|
  {
    if tables != [] {
      UnchangingTail(tables, s);
      if Fetch(s, cursor, limits[0]).hasMore {
        TraverseOn(tables, cursor, limits);
        PastThePage(s, cursor, limits[0]);
        StaticItems(s, tables[1..], Some(Fetch(s, cursor, limits[0]).items[limits[0] - 1]), limits[1..]);
      } else {
        LastPage(tables, cursor, limits);
      }
    }
  }

  ghost predicate Same(limits: seq<nat>, limit: nat) {
    forall i :: 0 <= i < |limits| ==> limits[i] == limit
  }

  /** With one limit throughout, it completes in as many pages as PageCount says. */
  lemma {:induction false} StaticPages(s: set<Key>, tables: seq<set<Key>>, cursor: Option<Key>, limits: seq<nat>, limit: nat)
    requires LimitsFor(limits, tables) && Unchanging(tables, s) && Same(limits, limit) && limit > 0
    requires |tables| >= PageCount(|Past(s, cursor)|, limit)
    ensures var pages := Traverse(tables, cursor, limits);
      Finished(pages) && |pages| == PageCount(|Past(s, cursor)|, limit)
    decreases |tables|
  {
    UnchangingTail(tables, s);
    FetchSize(s, cursor, limit);
    assert limits[0] == limit;
    if Fetch(s, cursor, limit).hasMore {
      OnePageMore(s, cursor, limit);
      TraverseOn(tables, cursor, limits);
      StaticPages(s, tables[1..], Some(Fetch(s, cursor, limit).items[limit - 1]), limits[1..], limit);
    } else {
      LastPage(tables, cursor, limits);
    }
  }

  lemma LastPage(tables: seq<set<Key>>, cursor: Option<Key>, limits: seq<nat>)
    requires LimitsFor(limits, tables) && tables != [] && !Fetch(tables[0], cursor, limits[0]).hasMore
    ensures var pages := Traverse(tables, cursor, limits);
      |pages| == 1 && Finished(pages) && Items(pages) == Sorted(Past(tables[0], cursor))
  {
    FetchSize(tables[0], cursor, limits[0]);
    FetchTakesTheNewest(tables[0], cursor, limits[0]);
    var page := Fetch(tables[0], cursor, limits[0]);
    assert Items([page]) == page.items + Items([]);
  }

  /** So following the cursor lists the whole table newest first; with one limit, in one page per limit rows
      and a single empty page when there are none. */
  lemma StaticTraversal(s: set<Key>, tables: seq<set<Key>>, limits: seq<nat>)
    requires LimitsFor(limits, tables) && Unchanging(tables, s)
    ensures var pages := Traverse(tables, None, limits);
      && (Finished(pages) ==> Items(pages) == Sorted(s))
      && forall limit: nat ::
           limit > 0 && Same(limits, limit) && |tables| >= PageCount(|s|, limit) ==>
             Finished(pages) && |pages| == PageCount(|s|, limit)
  {
    assert Past(s, None) == s;
    if Finished(Traverse(tables, None, limits)) {
      StaticItems(s, tables, None, limits);
    }
    forall limit: nat | limit > 0 && Same(limits, limit) && |tables| >= PageCount(|s|, limit)
      ensures var pages := Traverse(tables, None, limits); Finished(pages) && |pages| == PageCount(|s|, limit)
    {
      StaticPages(s, tables, None, limits, limit);
    }
  }

  lemma NewestIsUnique(s: set<Key>, key: Key)
    requires IsNewest(s, key)
    ensures Newest(s) == key
  {
  }

  lemma NewestFirst(s: set<Key>, key: Key)
    requires IsNewest(s, key)
    ensures Sorted(s) == [key] + Sorted(s - {key})
  {
    NewestIsUnique(s, key);
  }

  lemma MoveOne(rows: seq<Key>, key: Key, rest: seq<Key>)
    ensures rows + ([key] + rest) == rows + [key] + rest
  {
  }

  lemma TakeFirst(rows: seq<Key>, rest: seq<Key>, limit: nat)
    requires |rows| == limit || (|rows| < limit && rest == [])
    ensures Take(rows + rest, limit) == rows
  {
  }

  /** ORDER BY created_at DESC, id DESC LIMIT limit, one row at a time. */
  method SelectNewest(s: set<Key>, limit: nat) returns (rows: seq<Key>)
    ensures rows == Take(Sorted(s), limit)
    ensures forall key :: key in rows ==> key in s
  {
    var left := s;
    rows := [];
    assert [] + Sorted(s) == Sorted(s);
    while |rows| < limit && left != {}
      invariant |rows| <= limit && Sorted(s) == rows + Sorted(left)
      invariant left <= s && forall key :: key in rows ==> key in s
      decreases limit - |rows|
    {
      NewestExists(left);
      var key :| key in left && IsNewest(left, key);
      NewestFirst(left, key);
      MoveOne(rows, key, Sorted(left - {key}));
      rows := rows + [key];
      left := left - {key};
    }
    TakeFirst(rows, Sorted(left), limit);
  }

  /** In a newest-first list, a listed row is listed once. */
  lemma {:induction false} DescendingListsOnce(q: seq<Key>, key: Key)
    requires Descending(q) && key in q
    ensures multiset(q)[key] == 1
  {
    var i :| 0 <= i < |q| && q[i] == key;
    assert q == q[..i] + [key] + q[i + 1..];
    assert key !in q[..i] && key !in q[i + 1..];
  }

  // ----- A table that changes between pages -----

  function Changed<T, C>(after: (T, C) -> T, table: T, changes: seq<C>): T
    decreases |changes|
  {
    if changes == [] then table else Changed(after, after(table, changes[0]), changes[1..])
  }

  /** The table as each page finds it: changes[i] happen between pages i and i + 1. */
  function Versions<T, C>(after: (T, C) -> T, table: T, changes: seq<seq<C>>): (tables: seq<T>)
    ensures |tables| == |changes| + 1
    decreases |changes|
  {
    [table] + if changes == [] then [] else Versions(after, Changed(after, table, changes[0]), changes[1..])
  }

  /** The changes are made one after the other, all of them. */
  lemma {:induction false} ChangesAreMade<T, C>(after: (T, C) -> T, table: T, changes: seq<C>, last: C)
    ensures Changed(after, table, []) == table
    ensures Changed(after, table, changes + [last]) == after(Changed(after, table, changes), last)
    decreases |changes|
  {
    if changes == [] {
      assert ([last])[1..] == [] && changes + [last] == [last];
    } else {
      ChangesAreMade(after, after(table, changes[0]), changes[1..], last);
      assert (changes + [last])[1..] == changes[1..] + [last];
    }
  }

  /** Each page finds the table the one before found, with the changes in between. */
  lemma {:induction false} VersionStep<T, C>(after: (T, C) -> T, table: T, changes: seq<seq<C>>, i: nat)
    requires i < |changes|
    ensures Versions(after, table, changes)[0] == table
    ensures Versions(after, table, changes)[i + 1] == Changed(after, Versions(after, table, changes)[i], changes[i])
    decreases i
  {
    if i > 0 {
      VersionStep(after, Changed(after, table, changes[0]), changes[1..], i - 1);
    }
  }

  /** The positions a query asks for in each version. */
  function KeySets<T>(keysOf: T -> set<Key>, tables: seq<T>): (sets: seq<set<Key>>)
    ensures |sets| == |tables| && forall i :: 0 <= i < |tables| ==> sets[i] == keysOf(tables[i])
  {
    if tables == [] then [] else [keysOf(tables[0])] + KeySets(keysOf, tables[1..])
  }

  /** Over changing versions of a table, a row that every version asks for is listed exactly once by a
      traversal that was completed. */
  lemma LastingRowIsListedOnce<T>(keysOf: T -> set<Key>, tables: seq<T>, limits: seq<nat>, key: Key)
    requires LimitsFor(limits, tables) && forall i :: 0 <= i < |tables| ==> key in keysOf(tables[i])
    ensures var pages := Traverse(KeySets(keysOf, tables), None, limits);
      && Descending(Items(pages))
      && (Finished(pages) ==> multiset(Items(pages))[key] == 1)
  {
    var sets := KeySets(keysOf, tables);
    TraversalIsDescending(sets, None, limits);
    TraversalMissesNothing(sets, None, limits, key);
    if Finished(Traverse(sets, None, limits)) {
      DescendingListsOnce(Items(Traverse(sets, None, limits)), key);
    }
  }
}
