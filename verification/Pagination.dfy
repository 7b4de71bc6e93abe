/**
 Offset pages: the normalised page request, the row range the store's query is given after the
 narrowing to 32 bits, and when those ranges cut the ordered list into its true pages.
 */
module Pagination {
  import opened Arithmetic
  import opened Keyset
  import opened Text
  import opened Wrappers

  const DEFAULT_PAGE := 1
  const DEFAULT_PAGE_SIZE := 20
  const MAX_PAGE_SIZE := 100

  const MAX_INT32: int := 0x7FFF_FFFF
  const TWO32: int := 0x1_0000_0000
  const MAX_INT64: int := 0x7FFF_FFFF_FFFF_FFFF
  const TWO64: int := 0x1_0000_0000_0000_0000

  /** A Go int. */
  newtype Int64 = x: int | -0x8000_0000_0000_0000 <= x <= 0x7FFF_FFFF_FFFF_FFFF

  datatype Error = InvalidPagination

  datatype Params = Params(page: Int64, pageSize: Int64, search: string)

  datatype Normalized = Normalized(page: Int64, pageSize: Int64, offset: Int64, search: string)

  /** Multiplication of Go ints wraps around. */
  function Wrap64(x: int): (r: Int64)
    ensures (r as int - x) % TWO64 == 0
  {
    var w := (x + MAX_INT64 + 1) % TWO64 - MAX_INT64 - 1;
    assert w == x - TWO64 * ((x + MAX_INT64 + 1) / TWO64);
    w as Int64
  }

  /** The conversion int32(x). */
  function Wrap32(x: int): (r: int)
    ensures -MAX_INT32 - 1 <= r <= MAX_INT32
    ensures 0 <= x <= MAX_INT32 ==> r == x
  {
    (x + MAX_INT32 + 1) % TWO32 - MAX_INT32 - 1
  }

  lemma WrapsCompose(x: int)
    ensures Wrap32(Wrap64(x) as int) == Wrap32(x)
  {
    var w := Wrap64(x) as int;
    var k := (w - x) / TWO64;
    assert w - x == k * TWO64;
    var y := x + MAX_INT32 + 1;
    assert w + MAX_INT32 + 1 == y + k * TWO32 * TWO32;
    DivUnique(w + MAX_INT32 + 1, TWO32, y / TWO32 + k * TWO32);
  }

  function Normalize(p: Params): (r: Result<Normalized, Error>)
    ensures r.Err? <==> p.page < 0 || p.pageSize < 0 || p.pageSize > 100
    ensures r.Ok? ==> r.value.page >= 1 && 1 <= r.value.pageSize as int <= MAX_PAGE_SIZE
    ensures r.Ok? ==> r.value.page == (if p.page == 0 then 1 else p.page)
    ensures r.Ok? ==> r.value.pageSize == (if p.pageSize == 0 then 20 else p.pageSize)
    ensures r.Ok? ==> (r.value.offset as int - (r.value.page as int - 1) * r.value.pageSize as int) % TWO64 == 0
    ensures r.Ok? ==> r.value.search == TrimSpace(p.search)
  {
    var page := if p.page == 0 then DEFAULT_PAGE as Int64 else p.page;
    if page < 1 then Err(InvalidPagination) else
      var pageSize := if p.pageSize == 0 then DEFAULT_PAGE_SIZE as Int64 else p.pageSize;
      if pageSize < 1 || pageSize as int > MAX_PAGE_SIZE then Err(InvalidPagination)
      else Ok(Normalized(page, pageSize, Wrap64((page as int - 1) * pageSize as int), TrimSpace(p.search)))
  }

  // ----- The row range -----

  /** LIMIT limit OFFSET offset over an ordered list; the database refuses a negative offset. */
  ghost function Slice(list: seq<Key>, offset: int, limit: nat): Option<seq<Key>> {
    if offset < 0 then None
    else if offset >= |list| then Some([])
    else Some(Take(list[offset..], limit))
  }

  /** The rows of a range, one at a time. */
  method SelectRange(keys: set<Key>, offset: int, limit: nat) returns (rows: Option<seq<Key>>)
    ensures rows == Slice(Sorted(keys), offset, limit)
    ensures rows.Some? ==> forall key :: key in rows.value ==> key in keys
  {
    if offset < 0 {
      return None;
    }
    var first := SelectNewest(keys, offset + limit);
    if offset >= |first| {
      return Some([]);
    }
    assert first[offset..] == Take(Sorted(keys)[offset..], limit);
    return Some(first[offset..]);
  }

  /** The rows of a page, as the store's query is asked for them. */
  ghost function StorePage(keys: set<Key>, page: nat, pageSize: nat): Option<seq<Key>>
    requires page >= 1
  {
    Slice(Sorted(keys), Wrap32(Wrap64((page - 1) * pageSize) as int), pageSize)
  }

  /** The rows the page should hold. */
  ghost function TruePage(keys: set<Key>, page: nat, pageSize: nat): seq<Key>
    requires page >= 1
  {
    Slice(Sorted(keys), (page - 1) * pageSize, pageSize).value
  }

  function Column(n: nat): set<Key> {
    set i | 0 <= i < n :: Key(0, i)
  }

  lemma {:induction false} ColumnSize(n: nat)
    ensures |Column(n)| == n
  {
    if n > 0 {
      ColumnSize(n - 1);
      assert Column(n) == Column(n - 1) + {Key(0, n - 1)};
    }
  }

  /** Page requests are answered with their page, whatever the table, exactly when the page starts at
      a row number that fits 32 bits. */
  lemma PageIsTrueIff(page: nat, pageSize: nat)
    requires page >= 1 && pageSize >= 1
    ensures (forall keys :: StorePage(keys, page, pageSize) == Some(TruePage(keys, page, pageSize)))
      <==> (page - 1) * pageSize <= MAX_INT32
  {
    var offset := (page - 1) * pageSize;
    WrapsCompose(offset);
    if offset <= MAX_INT32 {
      forall keys ensures StorePage(keys, page, pageSize) == Some(TruePage(keys, page, pageSize)) {
        PageInRangeIsTrue(keys, page, pageSize, offset);
      }
    } else {
      var keys := WrappedPageIsWrong(page, pageSize, offset);
    }
  }

  lemma PageInRangeIsTrue(keys: set<Key>, page: nat, pageSize: nat, offset: nat)
    requires page >= 1 && offset == (page - 1) * pageSize && offset <= MAX_INT32
    ensures StorePage(keys, page, pageSize) == Some(TruePage(keys, page, pageSize))
  {
    NarrowOffset(offset);
  }

  /** Past that, some table's page is wrong, or the request fails. */
  lemma WrappedPageIsWrong(page: nat, pageSize: nat, offset: nat) returns (keys: set<Key>)
    requires page >= 1 && pageSize >= 1 && offset == (page - 1) * pageSize && offset > MAX_INT32
    ensures StorePage(keys, page, pageSize) != Some(TruePage(keys, page, pageSize))
  {
    WrapsCompose(offset);
    var asked := Wrap32(offset);
    if asked >= 0 {
      keys := Column(asked + 1);
      ColumnSize(asked + 1);
      assert |Sorted(keys)| == asked + 1 <= offset;
      assert TruePage(keys, page, pageSize) == [];
      assert |StorePage(keys, page, pageSize).value| == 1;
    } else {
      keys := {};
      assert StorePage({}, page, pageSize) == None;
    }
  }

  /** The rows of pages 1 to n, one after another. */
  ghost function Pages(keys: set<Key>, n: nat, pageSize: nat): seq<Key> {
    if n == 0 then [] else
      Pages(keys, n - 1, pageSize)
      + match StorePage(keys, n, pageSize) case None => [] case Some(rows) => rows
  }

  lemma TakeMore<T>(q: seq<T>, n: nat, m: nat)
    ensures Take(q, n) + (if n >= |q| then [] else Take(q[n..], m)) == Take(q, n + m)
  {
    if n + m < |q| {
      assert q[n..][..m] == q[n..n + m];
      assert q[..n] + q[n..n + m] == q[..n + m];
    } else if n < |q| {
      assert q[..n] + q[n..] == q;
    }
  }

  lemma NarrowOffset(x: int)
    requires 0 <= x <= MAX_INT32
    ensures Wrap32(Wrap64(x) as int) == x
  {
    WrapsCompose(x);
  }

  lemma StorePageInRange(keys: set<Key>, page: nat, pageSize: nat, offset: nat)
    requires page >= 1 && offset == (page - 1) * pageSize && offset <= MAX_INT32
    ensures var q := Sorted(keys);
      StorePage(keys, page, pageSize) == Some(if offset >= |q| then [] else Take(q[offset..], pageSize))
  {
    NarrowOffset(offset);
  }

  lemma NextPage(keys: set<Key>, n: nat, pageSize: nat, offset: nat)
    requires n >= 1 && offset == (n - 1) * pageSize && offset <= MAX_INT32
    requires Pages(keys, n - 1, pageSize) == Take(Sorted(keys), offset)
    ensures Pages(keys, n, pageSize) == Take(Sorted(keys), offset + pageSize)
  {
    StorePageInRange(keys, n, pageSize, offset);
    TakeMore(Sorted(keys), offset, pageSize);
  }

  lemma PageStart(n: int, pageSize: int)
    ensures (n - 1) * pageSize == n * pageSize - pageSize
  {
  }

  lemma {:induction false} PagesArePrefix(keys: set<Key>, n: nat, pageSize: nat, rows: nat)
    requires rows == n * pageSize && rows - pageSize <= MAX_INT32
    ensures Pages(keys, n, pageSize) == Take(Sorted(keys), rows)
    decreases n
  {
    if n > 0 {
      PageStart(n, pageSize);
      PagesArePrefix(keys, n - 1, pageSize, rows - pageSize);
      NextPage(keys, n, pageSize, rows - pageSize);
    }
  }

  /** The offset pages, read until they cover the total, are the whole ordered list. */
  lemma PagesAreTheList(keys: set<Key>, n: nat, pageSize: nat)
    requires pageSize >= 1 && n * pageSize >= |keys| && (n - 1) * pageSize <= MAX_INT32
    ensures Pages(keys, n, pageSize) == Sorted(keys)
  {
    PageStart(n, pageSize);
    PagesArePrefix(keys, n, pageSize, n * pageSize);
  }
}
