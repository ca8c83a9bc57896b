/** A client walking numbered pages of one size: they are the sorted result, each row once. */
module OffsetWalk {
  import opened Wrappers
  import opened Keyset
  import opened Request
  import opened Statement
  import opened Query
  import opened Collect
  import opened Windows
  import opened Offset
  import Resolve
  import Whitelist

  /** The tie tells the base rows apart, and `all` is their one sorting. */
  ghost predicate Tiled(q: PageQuery, model: Option<Whitelist.Model>, sort: seq<string>, base: seq<Row>,
                        all: seq<Row>) {
    && WellMade(q) && OrdersFor(q, model, sort).Ok?
    && Resolve.TieDistinguishes(q.tie, base)
    && Ordered(OrdersFor(q, model, sort).value, base, all)
  }

  /** What a fetched page tells of its place says which rows it has: those of its window. */
  lemma PlacedPageIsItsWindow(orders: seq<Order>, size: nat, number: nat, offset: nat, base: seq<Row>, all: seq<Row>,
                              page: PageRows)
    requires number > 0 && offset == (number - 1) * size
    requires Distinguished(orders, multiset(base)) && Ordered(orders, base, all)
    requires PlaceTold(orders, size, offset, base, page)
    ensures page == PageRows(Window(all, size, number), |all| - offset > size)
  {
    var sorted :| Ordered(orders, base, sorted) && page.rows == Take(Drop(sorted, offset), size);
    SortedIsUnique(orders, all, sorted);
    WindowAt(all, size, number, offset);
    assert |all| == |multiset(all)| == |multiset(base)| == |base|;
  }

  /** The client has had the pages before this one, and there are rows left unless it is the first. */
  ghost predicate HadPagesBefore(all: seq<Row>, size: nat, number: nat, rows: seq<Row>) {
    && number > 0 && |rows| == (number - 1) * size
    && rows <= all
    && (number > 1 ==> |rows| < |all|)
  }

  /** Page `number` reaches the end. */
  predicate EndsAt(all: seq<Row>, size: nat, number: nat) { |all| <= number * size }

  /** What comes of the page: put after those before it, it goes on along the sorted result. */
  ghost predicate Extends(all: seq<Row>, size: nat, number: nat, rows: seq<Row>, page: PageRows) {
    && rows + page.rows <= all
    && if page.more
       then HadPagesBefore(all, size, number + 1, rows + page.rows) && |rows + page.rows| > |rows|
       else rows + page.rows == all && EndsAt(all, size, number)
  }

  lemma WindowExtends(all: seq<Row>, size: nat, number: nat, rows: seq<Row>, page: PageRows)
    requires size > 0 && HadPagesBefore(all, size, number, rows)
    requires page == PageRows(Window(all, size, number), |all| - |rows| > size)
    ensures Extends(all, size, number, rows, page)
  {
    WindowAt(all, size, number, |rows|);
    NextRowsExtend(all, size, rows, page.rows);
    assert number * size == |rows| + size;
  }

  /** The rows put together from that many pages. */
  lemma RowsAreFirstPages(all: seq<Row>, size: nat, rows: seq<Row>, pages: nat)
    requires HadPagesBefore(all, size, pages + 1, rows) || (rows == all && EndsAt(all, size, pages))
    ensures rows == FirstPages(all, size, pages)
  {
    PagesTile(all, size, pages);
  }

  lemma PageExtends(orders: seq<Order>, size: nat, number: nat, base: seq<Row>, all: seq<Row>, rows: seq<Row>,
                    page: PageRows)
    requires Distinguished(orders, multiset(base)) && Ordered(orders, base, all)
    requires size > 0 && HadPagesBefore(all, size, number, rows)
    requires PlaceTold(orders, size, |rows|, base, page)
    ensures Extends(all, size, number, rows, page)
  {
    PlacedPageIsItsWindow(orders, size, number, |rows|, base, all, page);
    WindowExtends(all, size, number, rows, page);
  }

  /** The page's offset is the number of rows before it, and its number is not the last there is. */
  lemma OffsetIsRowsBefore(req: PageRequest, all: seq<Row>, rows: seq<Row>)
    requires HadPagesBefore(all, req.size, req.number, rows) && Bounds(req).Ok?
    ensures Bounds(req).value.1 == |rows| && req.size > 0
    ensures req.number <= MAX_INT64 + 1
  {
    BoundsAreExact(req);
    ProductIsMonotone(1, req.size, req.number - 1);
  }

  /** A page that other pages led to has bounds, if the result is not too long for a bigint. */
  lemma LaterPageHasBounds(req: PageRequest, all: seq<Row>, rows: seq<Row>)
    requires HadPagesBefore(all, req.size, req.number, rows) && FitsBigint(req.size, all)
    ensures Bounds(req).Ok?
  {
    BoundsAreExact(req);
  }

  /** The sizes and the length of the result stay within a bigint. */
  predicate FitsBigint(size: Uint, all: seq<Row>) {
    0 < size < MAX_INT64 && |all| <= MAX_INT64
  }

  /** One call of the walk. */
  method FetchWindow(db: Database, q: PageQuery, model: Option<Whitelist.Model>, req: PageRequest, args: seq<GoValue>,
                     cache: Whitelist.SortableCache, ghost all: seq<Row>, ghost rows: seq<Row>)
    returns (r: Result<PageRows>)
    requires |args| == db.snapshot.argc && WellFormed(db.snapshot)
    requires Tiled(q, model, req.sort, db.snapshot.rows(args), all) && HadPagesBefore(all, req.size, req.number, rows)
    requires Whitelist.Faithful(cache.entries)
    modifies db, cache
    ensures Whitelist.Faithful(cache.entries)
    ensures r.Err? ==> !FitsBigint(req.size, all) || db.FaultAt(old(db.queries)) != NO_FAULT
    ensures r.Ok? ==> Extends(all, req.size, req.number, rows, r.value) && req.number <= MAX_INT64 + 1
  {
    r := FetchPageRows(db, q, model, req, args, cache);
    if r.Ok? {
      OffsetIsRowsBefore(req, all, rows);
      OrdersDistinguish(q, model, req.sort, db.snapshot.rows(args));
      ghost var orders := OrdersFor(q, model, req.sort).value;
      PageExtends(orders, req.size, req.number, db.snapshot.rows(args), all, rows, r.value);
    } else if FitsBigint(req.size, all) {
      LaterPageHasBounds(req, all, rows);
    }
  }

  /** A client's loop: fetch pages 1, 2, ... of one size while more rows follow. */
  method FetchPages(db: Database, q: PageQuery, model: Option<Whitelist.Model>, sort: seq<string>, size: Uint,
                    args: seq<GoValue>, cache: Whitelist.SortableCache, ghost all: seq<Row>)
    returns (rows: seq<Row>, pages: nat, failure: Option<Error>)
    requires |args| == db.snapshot.argc && WellFormed(db.snapshot)
    requires Tiled(q, model, sort, db.snapshot.rows(args), all)
    requires Whitelist.Faithful(cache.entries)
    modifies db, cache
    ensures if failure == None then rows == all && EndsAt(all, size, pages)
            else HadPagesBefore(all, size, pages + 1, rows)
    ensures (forall n :: db.FaultAt(n) == NO_FAULT) && FitsBigint(size, all) ==> failure == None
  {
    rows, pages := [], 0;
    while true
      invariant pages < TWO_TO_64 - 1 && HadPagesBefore(all, size, pages + 1, rows)
      invariant Whitelist.Faithful(cache.entries)
      decreases |all| - |rows|
    {
      var page := FetchWindow(db, q, model, PageRequest(pages + 1, size, sort), args, cache, all, rows);
      if page.Err? {
        return rows, pages, Some(page.error);
      }
      rows, pages := rows + page.value.rows, pages + 1;
      if !page.value.more {
        return rows, pages, None;
      }
    }
  }

  /** The fetched pages put together are the first windows of the sorted result; if no call fails
      they are the whole of it, each row once. No call fails if the database does not, and the
      offsets fit a bigint. */
  method FetchAllPages(db: Database, q: PageQuery, model: Option<Whitelist.Model>, sort: seq<string>, size: Uint,
                       args: seq<GoValue>, cache: Whitelist.SortableCache, ghost all: seq<Row>)
    returns (rows: seq<Row>, pages: nat, failure: Option<Error>)
    requires |args| == db.snapshot.argc && WellFormed(db.snapshot)
    requires Tiled(q, model, sort, db.snapshot.rows(args), all)
    requires Whitelist.Faithful(cache.entries)
    modifies db, cache
    ensures rows == FirstPages(all, size, pages) <= all
    ensures failure == None ==> rows == all
    ensures (forall n :: db.FaultAt(n) == NO_FAULT) && FitsBigint(size, all) ==> failure == None
  {
    rows, pages, failure := FetchPages(db, q, model, sort, size, args, cache, all);
    RowsAreFirstPages(all, size, rows, pages);
  }
}
