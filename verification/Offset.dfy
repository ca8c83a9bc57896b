/** Numbered pages: LIMIT and OFFSET, the lookahead row, and a total found without counting where
    the page tells it (BuildRows and BuildCount, page/query.go; collectPage, collect.go). */
module Offset {
  import opened Wrappers
  import opened Text
  import opened Keyset
  import opened Request
  import opened Statement
  import opened StatementText
  import opened StatementReader
  import opened Query
  import opened Rows
  import opened Collect
  import opened Windows
  import OrderText
  import Resolve
  import Whitelist

  /** PagingArgs follow the query's own arguments: limit + 1, then offset. */
  datatype Statements = Statements(rows: string, pagingArgs: seq<GoValue>, limit: Uint, offset: Uint)

  function RowsBuilt(q: PageQuery, model: Option<Whitelist.Model>, req: PageRequest, argc: nat): Result<Statements> {
    if q.sql == "" then Err(ErrNoSQL)
    else
      match Bounds(req)
      case Err(e) => Err(e)
      case Ok((limit, offset)) =>
        match OrdersFor(q, model, req.sort)
        case Err(e) => Err(e)
        case Ok(orders) =>
          Ok(Statements(StatementSQL(q.sql, Numbered(orders, argc + 1, argc + 2)),
                        [Bigint(Plus(limit, 1)), Bigint(offset)], limit, offset))
  }

  method BuildRows(q: PageQuery, model: Option<Whitelist.Model>, req: PageRequest, argc: nat,
                   cache: Whitelist.SortableCache)
    returns (r: Result<Statements>)
    requires Whitelist.Faithful(cache.entries)
    modifies cache
    ensures Whitelist.Faithful(cache.entries)
    ensures r == RowsBuilt(q, model, req, argc)
  {
    if q.sql == "" {
      return Err(ErrNoSQL);
    }
    var bounds := Bounds(req);
    if bounds.Err? {
      return Err(bounds.error);
    }
    var (limit, offset) := bounds.value;
    var orders := Orders(q, model, req.sort, cache);
    if orders.Err? {
      return Err(orders.error);
    }
    var orderBy := OrderText.RenderOrders(orders.value);
    var suffix := " ORDER BY " + orderBy + " LIMIT " + Placeholder(argc + 1);
    var rows := SelectSQL(q.sql) + (suffix + (" OFFSET " + Placeholder(argc + 2)));
    r := Ok(Statements(rows, [Bigint(Plus(limit, 1)), Bigint(offset)], limit, offset));
  }

  /** A request is built exactly if there is SQL, the number and the size are positive, the limit with
      the lookahead row and the offset fit a bigint, and the sort resolves. What fails first is the
      error. */
  lemma RowsBuiltIsExact(q: PageQuery, model: Option<Whitelist.Model>, req: PageRequest, argc: nat)
    ensures RowsBuilt(q, model, req, argc).Ok? <==>
              && q.sql != "" && req.number > 0 && req.size > 0
              && req.size + 1 <= 0x7FFF_FFFF_FFFF_FFFF && (req.number - 1) * req.size <= 0x7FFF_FFFF_FFFF_FFFF
              && OrdersFor(q, model, req.sort).Ok?
    ensures RowsBuilt(q, model, req, argc).Err? ==>
              RowsBuilt(q, model, req, argc).error ==
                if q.sql == "" then ErrNoSQL
                else if Bounds(req).Err? then ErrInvalidRequest
                else OrdersFor(q, model, req.sort).error
  {
    BoundsAreExact(req);
  }

  /** The count runs over CountSQL if there is one, and the base SQL otherwise. */
  function CountText(q: PageQuery): string {
    "SELECT count(*) FROM (" + (if q.countSQL == "" then q.sql else q.countSQL) + ") AS pgfx_page"
  }

  /** What is counted is CountSQL if there is one, and else the base SQL. */
  lemma CountReadsBack(q: PageQuery)
    ensures q.countSQL == "" ==> ReadCount(CountText(q)) == Some(q.sql)
    ensures q.countSQL != "" ==> ReadCount(CountText(q)) == Some(q.countSQL)
  {
    CountedReadsBack(q.sql);
    CountedReadsBack(q.countSQL);
  }

  lemma CountedReadsBack(sql: string)
    ensures ReadCount("SELECT count(*) FROM (" + sql + ") AS pgfx_page") == Some(sql)
  {
    var lead, end := "SELECT count(*) FROM (", ") AS pgfx_page";
    var text := lead + sql + end;
    assert text == lead + (sql + end);
    assert text[..|lead|] == lead && text[|text| - |end|..] == end;
    assert text[|lead|..|text| - |end|] == sql;
  }

  // ---- What the rows statement asks for ---------------------------------------------------

  /** The bounds of a page that can be built. */
  lemma BuiltBounds(q: PageQuery, model: Option<Whitelist.Model>, req: PageRequest, argc: nat)
    requires RowsBuilt(q, model, req, argc).Ok?
    ensures
      var st := RowsBuilt(q, model, req, argc).value;
      && req.number > 0 && req.size > 0
      && st.limit == req.size && st.limit + 1 <= MAX_INT64
      && st.offset == (req.number - 1) * req.size && st.offset <= MAX_INT64
      && st.pagingArgs == [Bigint(st.limit + 1), Bigint(st.offset)]
      && OrdersFor(q, model, req.sort).Ok?
      && st.rows == StatementSQL(q.sql, Numbered(OrdersFor(q, model, req.sort).value, argc + 1, argc + 2))
  {
    BoundsAreExact(req);
  }

  lemma PagingArgsAreWired(args: seq<GoValue>, limit: Uint, offset: Uint)
    requires limit + 1 < TWO_TO_64
    ensures
      var params := args + [Bigint(limit + 1), Bigint(offset)];
      LimitOf(params, |args| + 1) == limit + 1 && LimitOf(params, |args| + 2) == offset
  {
    var params := args + [Bigint(limit + 1), Bigint(offset)];
    BigintIsWired(params, |args| + 1, limit + 1);
    BigintIsWired(params, |args| + 2, offset);
  }

  /** Whatever the database returns for a numbered page is the window of some sorting of the base
      rows: limit + 1 of them after the offset. */
  lemma RowsAskForTheWindow(q: PageQuery, model: Option<Whitelist.Model>, req: PageRequest, args: seq<GoValue>,
                            base: seq<Row>, out: seq<Row>)
    requires WellMade(q) && RowsBuilt(q, model, req, |args|).Ok?
    requires
      var st := RowsBuilt(q, model, req, |args|).value;
      TextOutcome(q.sql, st.rows, base, args + st.pagingArgs, out)
    ensures
      var st := RowsBuilt(q, model, req, |args|).value;
      OrderedWindow(OrdersFor(q, model, req.sort).value, st.offset, st.limit + 1, base, out)
  {
    var st := RowsBuilt(q, model, req, |args|).value;
    BuiltBounds(q, model, req, |args|);
    ResolvedIsRenderable(q, model, req.sort);
    NumberedAsksForTheWindow(q.sql, OrdersFor(q, model, req.sort).value, args, st.limit, st.offset, base, out);
  }

  lemma NumberedAsksForTheWindow(sql: string, orders: seq<Order>, args: seq<GoValue>, limit: Uint, offset: Uint,
                                 base: seq<Row>, out: seq<Row>)
    requires Renderable(orders) && limit + 1 < TWO_TO_64
    requires TextOutcome(sql, StatementSQL(sql, Numbered(orders, |args| + 1, |args| + 2)), base,
                         args + [Bigint(limit + 1), Bigint(offset)], out)
    ensures OrderedWindow(orders, offset, limit + 1, base, out)
  {
    var params := args + [Bigint(limit + 1), Bigint(offset)];
    TextMeansTheStatement(sql, Numbered(orders, |args| + 1, |args| + 2), base, params, out);
    PagingArgsAreWired(args, limit, offset);
  }

  // ---- Fetching ---------------------------------------------------------------------------

  /** pgx.AppendRows decodes every row there is, the lookahead row too. */
  predicate ReadsWhole(s: Stream) {
    s.failure == None && forall i :: 0 <= i < |s.rows| ==> i !in s.undecodable
  }

  method AppendRows(rows: RowStream) returns (r: Result<seq<Row>>)
    requires rows.Valid() && rows.index == 0 && !rows.closed
    modifies rows
    ensures rows.closed
    ensures r.Ok? <==> ReadsWhole(rows.stream)
    ensures r.Ok? ==> r.value == rows.stream.rows
  {
    var list := [];
    var more := rows.Next();
    while more
      invariant rows.Valid() && more == !rows.closed
      invariant |list| == rows.index - (if more then 1 else 0) && (more ==> rows.index > 0)
      invariant list == rows.stream.rows[..|list|]
      invariant forall i :: 0 <= i < |list| ==> i !in rows.stream.undecodable
      invariant !more ==> |list| == |rows.stream.rows|
      decreases |rows.stream.rows| - |list|, more
    {
      var item := rows.Decode();
      if item.Err? {
        rows.Close();
        return Err(item.error);
      }
      list := list + [item.value];
      more := rows.Next();
    }
    assert list == rows.stream.rows;
    var failure := rows.Failure();
    r := if failure.Some? then Err(failure.value) else Ok(list);
  }

  /** The rows of a page, and whether another page follows. */
  method CollectPageRows(db: Database, sql: string, st: Statements, args: seq<GoValue>) returns (r: Result<PageRows>)
    requires |args| == db.snapshot.argc && WellFormed(db.snapshot)
    modifies db
    ensures db.queries == old(db.queries) + 1
    ensures r.Ok? ==>
              && db.last != null && db.last.closed
              && TextOutcome(sql, st.rows, db.snapshot.rows(args), args + st.pagingArgs, db.last.stream.rows)
              && r.value == Split(db.last.stream.rows, st.limit)
    ensures r.Err? ==> db.FaultAt(old(db.queries)) != NO_FAULT || ReadStatement(sql, st.rows).None?
  {
    ghost var fault := db.FaultAt(db.queries);
    var stream := db.Query(sql, st.rows, args + st.pagingArgs);
    if stream.Err? {
      return Err(stream.error);
    }
    var rows := AppendRows(stream.value);
    if rows.Err? {
      assert !Unbroken(stream.value.stream);
      return Err(rows.error);
    }
    WholeAnswer(stream.value.stream, db.snapshot, fault, sql, st.rows, args + st.pagingArgs);
    assert (args + st.pagingArgs)[..|args|] == args;
    if |rows.value| > st.limit {
      r := Ok(PageRows(rows.value[..st.limit], true));
    } else {
      r := Ok(PageRows(rows.value, false));
    }
  }

  datatype PageResult = PageResult(list: seq<Row>, total: Uint)

  /** The base SQL has the base rows; CountSQL, if there is one, has as many, and then nothing is
      asked of counting the base SQL. */
  ghost predicate CountsTheBase(q: PageQuery, snapshot: Snapshot, args: seq<GoValue>) {
    && |snapshot.rows(args)| < TWO_TO_64
    && (q.countSQL == "" ==> snapshot.size(q.sql, args) == |snapshot.rows(args)|)
    && (q.countSQL != "" ==> snapshot.size(q.countSQL, args) == |snapshot.rows(args)|)
  }

  /** Why no statement is built, if none is. */
  function BuildError(q: PageQuery, model: Option<Whitelist.Model>, req: PageRequest): Option<Error> {
    if q.sql == "" then Some(ErrNoSQL)
    else if Bounds(req).Err? then Some(Bounds(req).error)
    else if OrdersFor(q, model, req.sort).Err? then Some(OrdersFor(q, model, req.sort).error)
    else None
  }

  /** What the fetched rows tell: they stand in some sorting of the base, and whether
      more follow or they end it. */
  ghost predicate PlaceTold(orders: seq<Order>, limit: nat, offset: nat, base: seq<Row>, page: PageRows) {
    && OrderedWindow(orders, offset, limit, base, page.rows)
    && (page.more <==> |base| - offset > limit)
    && (page.rows != [] && !page.more <==> IsLastPage(limit, offset, |base|))
    && (page.rows != [] && !page.more ==> |base| == offset + |page.rows|)
  }

  /** The last row of the base is on the page. */
  predicate IsLastPage(limit: nat, offset: nat, total: nat) {
    0 < total - offset <= limit
  }

  /** What collectPage promises of a page it returns, after `asked` statements. */
  ghost predicate PageKept(orders: seq<Order>, limit: nat, offset: nat, base: seq<Row>, page: PageResult, asked: int) {
    && page.total == |base|
    && OrderedWindow(orders, offset, limit, base, page.list)
    && asked == if IsLastPage(limit, offset, |base|) then 1 else 2
  }

  lemma PageIsKept(orders: seq<Order>, limit: nat, offset: nat, base: seq<Row>, page: PageRows, total: Uint, asked: int)
    requires PlaceTold(orders, limit, offset, base, page)
    requires total == |base| && asked == if page.rows != [] && !page.more then 1 else 2
    ensures PageKept(orders, limit, offset, base, PageResult(page.rows, total), asked)
  {
  }

  /** Builds the rows statement and runs it. */
  method FetchPageRows(db: Database, q: PageQuery, model: Option<Whitelist.Model>, req: PageRequest, args: seq<GoValue>,
                       cache: Whitelist.SortableCache)
    returns (r: Result<PageRows>)
    requires Obtained(q) && |args| == db.snapshot.argc && WellFormed(db.snapshot)
    requires Whitelist.Faithful(cache.entries)
    modifies db, cache
    ensures Whitelist.Faithful(cache.entries)
    ensures match BuildError(q, model, req)
            case Some(e) => r == Err(e) && db.queries == old(db.queries)
            case None => db.queries == old(db.queries) + 1 && (r.Err? ==> db.FaultAt(old(db.queries)) != NO_FAULT)
    ensures r.Ok? ==>
              && BuildError(q, model, req) == None
              && PlaceTold(OrdersFor(q, model, req.sort).value, req.size, Bounds(req).value.1, db.snapshot.rows(args),
                           r.value)
  {
    ghost var asked := db.queries;
    var st := BuildRows(q, model, req, |args|, cache);
    if st.Err? {
      return Err(st.error);
    }
    NumberedIsReadable(q, model, req, args);
    r := CollectPageRows(db, q.sql, st.value, args);
    if r.Ok? {
      RowsAskForTheWindow(q, model, req, args, db.snapshot.rows(args), db.last.stream.rows);
      BuiltBounds(q, model, req, |args|);
      WindowTellsItsPlace(OrdersFor(q, model, req.sort).value, st.value.limit, st.value.offset, db.snapshot.rows(args),
                          db.last.stream.rows);
    }
  }

  /** The total, from the page where it tells, and otherwise counted. */
  method Total(db: Database, q: PageQuery, offset: Uint, page: PageRows, args: seq<GoValue>) returns (r: Result<Uint>)
    requires |args| == db.snapshot.argc && CountsTheBase(q, db.snapshot, args)
    requires page.rows != [] && !page.more ==> offset + |page.rows| == |db.snapshot.rows(args)|
    modifies db
    ensures r.Ok? ==> r.value == |db.snapshot.rows(args)|
    ensures db.queries == old(db.queries) + if page.rows != [] && !page.more then 0 else 1
    ensures r.Err? ==> db.FaultAt(old(db.queries)) != NO_FAULT
  {
    if |page.rows| > 0 && !page.more {
      return Ok(Plus(offset, |page.rows|));
    }
    CountReadsBack(q);
    var count := db.Count(CountText(q), args);
    if count.Err? {
      return Err(count.error);
    }
    r := Ok(count.value);
  }

  /** The page with its total, the first statement being the one after `asked`. */
  method WithTotal(db: Database, q: PageQuery, ghost orders: seq<Order>, ghost limit: nat, offset: Uint, page: PageRows,
                   args: seq<GoValue>, ghost asked: nat)
    returns (r: Result<PageResult>)
    requires |args| == db.snapshot.argc && CountsTheBase(q, db.snapshot, args)
    requires PlaceTold(orders, limit, offset, db.snapshot.rows(args), page)
    requires db.queries == asked + 1
    modifies db
    ensures r.Ok? ==> PageKept(orders, limit, offset, db.snapshot.rows(args), r.value, db.queries - asked)
    ensures r.Err? ==> db.FaultAt(asked + 1) != NO_FAULT
  {
    var total := Total(db, q, offset, page, args);
    if total.Err? {
      return Err(total.error);
    }
    PageIsKept(orders, limit, offset, db.snapshot.rows(args), page, total.value, db.queries - asked);
    r := Ok(PageResult(page.rows, total.value));
  }

  /** collectPage: the total is the number of base rows on every path, whether it was inferred or
      counted, and it is counted unless the page is non-empty with no row after it. */
  method CollectPage(db: Database, q: PageQuery, model: Option<Whitelist.Model>, req: PageRequest, args: seq<GoValue>,
                     cache: Whitelist.SortableCache)
    returns (r: Result<PageResult>)
    requires Obtained(q) && |args| == db.snapshot.argc && WellFormed(db.snapshot)
    requires CountsTheBase(q, db.snapshot, args)
    requires Whitelist.Faithful(cache.entries)
    modifies db, cache
    ensures Whitelist.Faithful(cache.entries)
    ensures BuildError(q, model, req).Some? ==> r == Err(BuildError(q, model, req).value)
    ensures BuildError(q, model, req).None? && r.Err? ==>
              db.FaultAt(old(db.queries)) != NO_FAULT || db.FaultAt(old(db.queries) + 1) != NO_FAULT
    ensures r.Ok? ==>
              && BuildError(q, model, req) == None
              && PageKept(OrdersFor(q, model, req.sort).value, req.size, Bounds(req).value.1, db.snapshot.rows(args),
                          r.value, db.queries - old(db.queries))
  {
    ghost var asked := db.queries;
    var page := FetchPageRows(db, q, model, req, args, cache);
    if page.Err? {
      return Err(page.error);
    }
    ghost var orders := OrdersFor(q, model, req.sort).value;
    r := WithTotal(db, q, orders, req.size, Bounds(req).value.1, page.value, args, asked);
  }

  lemma NumberedIsReadable(q: PageQuery, model: Option<Whitelist.Model>, req: PageRequest, args: seq<GoValue>)
    requires WellMade(q) && RowsBuilt(q, model, req, |args|).Ok?
    ensures ReadStatement(q.sql, RowsBuilt(q, model, req, |args|).value.rows).Some?
  {
    BuiltBounds(q, model, req, |args|);
    ResolvedIsRenderable(q, model, req.sort);
    StatementReadsBack(q.sql, Numbered(OrdersFor(q, model, req.sort).value, |args| + 1, |args| + 2));
  }

  /** What the rows of a numbered page say about where it stands. */
  lemma WindowTellsItsPlace(orders: seq<Order>, limit: nat, offset: nat, base: seq<Row>, out: seq<Row>)
    requires limit > 0 && OrderedWindow(orders, offset, limit + 1, base, out)
    ensures PlaceTold(orders, limit, offset, base, Split(out, limit))
  {
    SplitWindow(orders, offset, limit, base, out);
  }

  /** With a tie that tells rows apart, a numbered page is its window of the one sorted result, and
      another page follows exactly if the next window is not empty. */
  lemma NumberedPageIsItsWindow(q: PageQuery, model: Option<Whitelist.Model>, req: PageRequest, args: seq<GoValue>,
                                base: seq<Row>, all: seq<Row>, out: seq<Row>)
    requires WellMade(q) && RowsBuilt(q, model, req, |args|).Ok?
    requires Resolve.TieDistinguishes(q.tie, base) && OrdersFor(q, model, req.sort).Ok?
    requires Ordered(OrdersFor(q, model, req.sort).value, base, all)
    requires
      var st := RowsBuilt(q, model, req, |args|).value;
      TextOutcome(q.sql, st.rows, base, args + st.pagingArgs, out)
    ensures req.number > 0
    ensures Split(out, req.size)
            == PageRows(Window(all, req.size, req.number), Window(all, req.size, req.number + 1) != [])
  {
    var st := RowsBuilt(q, model, req, |args|).value;
    BuiltBounds(q, model, req, |args|);
    RowsAskForTheWindow(q, model, req, args, base, out);
    OrdersDistinguish(q, model, req.sort, base);
    WindowIsThePage(OrdersFor(q, model, req.sort).value, req.number, req.size, st.offset, base, all, out);
  }

  lemma WindowIsThePage(orders: seq<Order>, number: nat, size: nat, offset: nat, base: seq<Row>, all: seq<Row>,
                        out: seq<Row>)
    requires number > 0 && size > 0 && offset == (number - 1) * size
    requires Distinguished(orders, multiset(base)) && Ordered(orders, base, all)
    requires OrderedWindow(orders, offset, size + 1, base, out)
    ensures Split(out, size) == PageRows(Window(all, size, number), Window(all, size, number + 1) != [])
  {
    WindowIsOfTheSorted(orders, offset, size, base, all, out);
    WindowAt(all, size, number, offset);
  }
}
