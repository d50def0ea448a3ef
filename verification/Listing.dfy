/** The paged customer list of the in-memory read model. */
module Listing {
  import Text
  import opened Projections
  import opened Ids
  import opened Sorting

  const DEFAULT_LIMIT := 20
  const MAX_LIMIT := 100

  datatype Page = Page(limit: int, offset: int)

  datatype PageResult = PageResult(items: seq<Row>, total: nat, limit: int, offset: int)

  /** pagination.New: a page the list accepts, left as it is if it was acceptable. */
  function NewPage(limit: int, offset: int): (p: Page)
    ensures 1 <= p.limit <= MAX_LIMIT && p.offset >= 0
    ensures p.limit == if limit <= 0 then 20 else if limit <= 100 then limit else 100
    ensures p.offset == if offset < 0 then 0 else offset
  {
    var positive := if limit <= 0 then DEFAULT_LIMIT else limit;
    Page(if positive > MAX_LIMIT then MAX_LIMIT else positive, if offset < 0 then 0 else offset)
  }

  /** By creation time, then by id. */
  predicate RowLess(a: Row, b: Row) {
    if a.createdAt == b.createdAt then Text.Less(a.id, b.id) else a.createdAt < b.createdAt
  }

  lemma RowLessTransitive(a: Row, b: Row, c: Row)
    requires RowLess(a, b) && RowLess(b, c)
    ensures RowLess(a, c)
  {
    if a.createdAt == b.createdAt == c.createdAt { Text.LessTransitive(a.id, b.id, c.id); }
  }

  /** No two rows compare equal, because no two rows share an id. */
  lemma RowsOrdered(rows: Rows)
    requires Keyed(rows)
    ensures StrictOrder(RowLess, rows.Values)
  {
    var s := rows.Values;
    forall a | a in s ensures !RowLess(a, a) { Text.LessIrreflexive(a.id); }
    forall a, b, c | a in s && b in s && c in s && RowLess(a, b) && RowLess(b, c) ensures RowLess(a, c) {
      RowLessTransitive(a, b, c);
    }
    forall a, b | a in s && b in s && a != b ensures RowLess(a, b) || RowLess(b, a) {
      Text.LessTotal(a.id, b.id);
    }
  }

  /** xs is every row once, by creation time and id. */
  predicate IsListing(rows: Rows, xs: seq<Row>) { Arranges(RowLess, xs, rows.Values) }

  /** There is only one such list. */
  lemma ListingUnique(rows: Rows, a: seq<Row>, b: seq<Row>)
    requires Keyed(rows) && IsListing(rows, a) && IsListing(rows, b)
    ensures a == b
  {
    RowsOrdered(rows);
    ArrangementUnique(RowLess, a, b, rows.Values);
  }

  /** The order of a listing, said by the rows: creation times never go down, and among
      rows of one time the ids go up. */
  lemma ListingSorted(rows: Rows, xs: seq<Row>, i: nat, j: nat)
    requires IsListing(rows, xs) && i < j < |xs|
    ensures xs[i].createdAt <= xs[j].createdAt
    ensures xs[i].createdAt == xs[j].createdAt ==> Text.Less(xs[i].id, xs[j].id)
  {
    assert RowLess(xs[i], xs[j]);
  }

  lemma ListingLength(rows: Rows, xs: seq<Row>)
    requires Keyed(rows) && IsListing(rows, xs)
    ensures |xs| == |rows|
  {
    RowsOrdered(rows);
    var ids := seq(|xs|, i requires 0 <= i < |xs| => xs[i].id);
    forall i | 0 <= i < |xs| ensures xs[i] in rows.Values && xs[i].id in rows && rows[xs[i].id] == xs[i] {
      assert xs[i] in Elems(xs);
    }
    forall i, j | 0 <= i < j < |xs| ensures ids[i] != ids[j] { assert RowLess(xs[i], xs[j]); }
    forall id | id in rows ensures id in Elems(ids) {
      assert rows[id] in Elems(xs);
      var i :| 0 <= i < |xs| && xs[i] == rows[id];
      assert ids[i] == id;
    }
    assert Elems(ids) == rows.Keys;
    DistinctSize(ids);
  }

  function Min(a: int, b: int): int { if a < b then a else b }

  function Window(xs: seq<Row>, page: Page): seq<Row>
    requires page.limit >= 0 && page.offset >= 0
  {
    var lo := Min(page.offset, |xs|);
    xs[lo..Min(lo + page.limit, |xs|)]
  }

  /** A page holds the rows from its offset on, as many as its limit or as there are. */
  lemma WindowExactly(xs: seq<Row>, page: Page)
    requires page.limit >= 0 && page.offset >= 0
    ensures var w := Window(xs, page);
            && |w| == (if page.offset >= |xs| then 0 else if page.offset + page.limit <= |xs| then page.limit else |xs| - page.offset)
            && forall i | 0 <= i < |w| :: page.offset + i < |xs| && w[i] == xs[page.offset + i]
  {
  }

  ghost predicate ListsPage(rows: Rows, page: Page, r: PageResult)
    requires page.limit >= 0 && page.offset >= 0
  {
    && (exists xs: seq<Row> :: IsListing(rows, xs))
    && (forall xs: seq<Row> :: IsListing(rows, xs) ==> r.items == Window(xs, page) && r.total == |xs|)
  }

  /** The rows are visited in whatever order the map gives them; the page is the same. */
  method List(m: MemoryReadModel, page: Page) returns (r: PageResult)
    requires m.Valid() && page.limit >= 0 && page.offset >= 0
    ensures ListsPage(m.rows, page, r) && r.total == |m.rows|
    ensures r.limit == page.limit && r.offset == page.offset
  {
    var all: seq<Row> := [];
    var unread := m.rows.Keys;
    while unread != {}
      invariant unread <= m.rows.Keys && |all| + |unread| == |m.rows|
      invariant forall row | row in all :: row.id in m.rows && row.id !in unread && m.rows[row.id] == row
      invariant forall id | id in m.rows && id !in unread :: m.rows[id] in all
      invariant Distinct(all)
      decreases |unread|
    {
      var id :| id in unread;
      assert m.rows[id] !in all;
      all := all + [m.rows[id]];
      unread := unread - {id};
    }
    assert Elems(all) == m.rows.Values;
    RowsOrdered(m.rows);
    SortArranges(RowLess, all);
    var sorted := Sort(RowLess, all);
    ListingLength(m.rows, sorted);
    forall xs: seq<Row> | IsListing(m.rows, xs) ensures xs == sorted { ListingUnique(m.rows, xs, sorted); }
    assert IsListing(m.rows, sorted);
    var total := |sorted|;
    var lo := Min(page.offset, total);
    var hi := Min(lo + page.limit, total);
    return PageResult(sorted[lo..hi], total, page.limit, page.offset);
  }

  // ---------- paging through ----------

  /** The items of the first k pages of this size, one after another. */
  function Pages(xs: seq<Row>, limit: nat, k: nat): seq<Row> {
    if k == 0 then [] else Pages(xs, limit, k - 1) + Window(xs, Page(limit, (k - 1) * limit))
  }

  lemma {:induction false} PagesArePrefix(xs: seq<Row>, limit: nat, k: nat)
    ensures Pages(xs, limit, k) == xs[..Min(k * limit, |xs|)]
  {
    if k > 0 {
      PagesArePrefix(xs, limit, k - 1);
      var before := (k - 1) * limit;
      assert k * limit == before + limit;
    }
  }

  /** Pages at offsets 0, L, 2L, ... list every row exactly once, in order, as soon
      as there are enough of them and not before. */
  lemma PagesCoverRows(rows: Rows, xs: seq<Row>, limit: nat, k: nat)
    requires Keyed(rows) && IsListing(rows, xs)
    ensures IsListing(rows, Pages(xs, limit, k)) <==> k * limit >= |rows|
  {
    PagesArePrefix(xs, limit, k);
    ListingLength(rows, xs);
    if k * limit >= |rows| {
      assert xs[..|xs|] == xs;
    } else if IsListing(rows, Pages(xs, limit, k)) {
      ListingUnique(rows, xs, Pages(xs, limit, k));
    }
  }
}
