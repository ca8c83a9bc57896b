/** A client walking a result page by page: the pages are the sorted result, each row once. */
module Traverse {
  import opened Wrappers
  import opened Keyset
  import opened Request
  import opened Statement
  import opened StatementReader
  import opened NextRows
  import opened Cursor
  import opened Query
  import opened Paging
  import opened Rows
  import opened Collect
  import opened Windows
  import Resolve
  import Whitelist

  /** What stays the same over a walk: the query, the sort, the filter arguments, the order they
      resolve to, the base rows and the sorted result. */
  datatype Walk = Walk(codec: Codec, q: PageQuery, model: Option<Whitelist.Model>, sort: seq<string>,
                       args: seq<GoValue>, orders: seq<Order>, base: seq<Row>, all: seq<Row>)

  /** The tie tells the base rows apart, and their keys survive the token's encoding. */
  ghost predicate Settled(w: Walk) {
    && WellMade(w.q) && Lawful(w.codec)
    && OrdersFor(w.q, w.model, w.sort) == Ok(w.orders)
    && Resolve.TieDistinguishes(w.q.tie, w.base)
    && Ordered(w.orders, w.base, w.all)
    && forall r :: r in w.base ==> NilBytes !in KeyCells(w.orders, r) && Exact(w.codec, KeyCells(w.orders, r))
  }

  function Scope(w: Walk): Option<string> { w.codec.scopeHash(w.q.sql, w.orders, w.args) }

  function BuiltFor(w: Walk, req: CursorRequest): Result<CursorStatement> {
    Built(w.codec, w.q, w.model, req, w.args)
  }

  /** The keys the cursor holds after c rows. */
  function KeysAfter(w: Walk, c: nat): seq<GoValue>
    requires c <= |w.all|
  {
    if c == 0 then [] else KeyCells(w.orders, w.all[c - 1])
  }

  /** The client has had c rows, and holds the cursor that goes on from there. */
  ghost predicate At(w: Walk, c: nat, after: string) {
    && c <= |w.all|
    && if c == 0 then after == ""
       else Scope(w).Some? && CursorText(w.codec, Scope(w).value, w.orders, KeysAfter(w, c)) == Ok(after)
  }

  lemma RowsOfWalk(w: Walk, c: nat)
    requires Settled(w) && c < |w.all|
    ensures w.all[c] in w.base
  {
    assert w.all[c] in multiset(w.all);
  }

  lemma WalkIsDistinguished(w: Walk)
    requires Settled(w)
    ensures Distinguished(w.orders, multiset(w.base)) && Renderable(w.orders) && Resolve.DistinctColumns(w.orders)
  {
    OrdersAreDistinct(w.q, w.model, w.sort);
    OrdersDistinguish(w.q, w.model, w.sort, w.base);
    ResolvedIsRenderable(w.q, w.model, w.sort);
  }

  /** The cursor held after c rows builds the statement for the keys of row c. */
  lemma BuiltAt(w: Walk, c: nat, after: string, size: Uint)
    requires Settled(w) && At(w, c, after)
    requires GoodSize(size) && |w.orders| <= MAX_CURSOR_KEYS && Scope(w).Some?
    ensures BuiltFor(w, CursorRequest(size, after, w.sort))
         == Ok(Prepared(w.q.sql, w.orders, KeysAfter(w, c), w.args, size, Scope(w).value))
  {
    if c > 0 {
      RowsOfWalk(w, c - 1);
      var first := CursorStatement("", [], w.orders, Scope(w).value);
      var req := CursorRequest(size, after, w.sort);
      TokenThroughTheBuilder(w.codec, first, KeysAfter(w, c), after, w.q, w.model, req, w.args);
    }
  }

  /** What can be built at all. */
  lemma BuiltMeansScoped(w: Walk, req: CursorRequest)
    requires OrdersFor(w.q, w.model, req.sort) == Ok(w.orders)
    requires BuiltFor(w, req).Ok?
    ensures |w.orders| <= MAX_CURSOR_KEYS && Scope(w).Some?
  {
  }

  lemma KeysAfterAreClean(w: Walk, c: nat)
    requires Settled(w) && c <= |w.all|
    ensures NilBytes !in KeysAfter(w, c)
    ensures w.orders != [] ==> (KeysAfter(w, c) == [] <==> c == 0)
  {
    if c > 0 { RowsOfWalk(w, c - 1); }
  }

  lemma NoRowsLeft(orders: seq<Order>, values: seq<GoValue>)
    requires values == [] || |values| == |orders|
    ensures RowsFrom(orders, values, []) == []
  {
  }

  lemma SomeRowsLeft(w: Walk, c: nat)
    requires c <= |w.all| && w.all != [] && w.orders != []
    requires Sorted(w.orders, w.all) && Distinguished(w.orders, multiset(w.all))
    ensures RowsFrom(w.orders, KeysAfter(w, c), w.all) == w.all[c..]
  {
    if c > 0 {
      KeyCellsAreTheKeys(w.orders, w.all[c - 1]);
      RowsAfterAreTheRest(w.orders, KeyCells(w.orders, w.all[c - 1]), w.all, c - 1);
    }
  }

  lemma RowsFromTheCursor(w: Walk, c: nat)
    requires c <= |w.all| && w.orders != []
    requires Sorted(w.orders, w.all) && Distinguished(w.orders, multiset(w.all))
    ensures RowsFrom(w.orders, KeysAfter(w, c), w.all) == w.all[c..]
  {
    if w.all == [] {
      NoRowsLeft(w.orders, []);
    } else {
      SomeRowsLeft(w, c);
    }
  }

  /** After c rows the database's answer is the next size + 1 rows of the sorted result. */
  lemma AnswerAt(w: Walk, c: nat, size: Uint, out: seq<Row>)
    requires Settled(w) && c <= |w.all| && GoodSize(size) && Scope(w).Some?
    requires
      var st := Prepared(w.q.sql, w.orders, KeysAfter(w, c), w.args, size, Scope(w).value);
      TextOutcome(w.q.sql, st.rows, w.base, st.args, out)
    ensures out == Take(w.all[c..], size + 1)
  {
    WalkIsDistinguished(w);
    KeysAfterAreClean(w, c);
    PreparedAsksForNextRows(w.q.sql, w.orders, KeysAfter(w, c), w.args, size, Scope(w).value, w.base, w.all, out);
    assert multiset(w.all) == multiset(w.base);
    RowsFromTheCursor(w, c);
  }

  /** The page is the next `size` rows after c; it says whether any are left, and if so its cursor
      goes on from the last row it holds. */
  ghost predicate NextPage(w: Walk, c: nat, size: nat, page: CursorResult)
    requires c <= |w.all|
  {
    && page.list == Take(w.all[c..], size)
    && (page.hasMore <==> |w.all| - c > size)
    && if page.hasMore then At(w, c + size, page.nextCursor) else page.nextCursor == ""
  }

  /** A page read off the next size + 1 rows is the next page: the lookahead row only tells that
      there is more. */
  lemma PageAt(w: Walk, c: nat, size: Uint, s: Stream, st: CursorStatement, page: CursorResult)
    requires c <= |w.all| && GoodSize(size)
    requires st.orders == w.orders && Scope(w) == Some(st.scope)
    requires s.rows == Take(w.all[c..], size + 1)
    requires PageOf(w.codec, st, s, size) == Ok(page)
    ensures NextPage(w, c, size, page)
  {
    if page.hasMore {
      assert s.rows[size - 1] == w.all[c + size - 1];
    }
  }

  // ---- The walk ---------------------------------------------------------------------------

  /** Nothing stands in the way: every query is answered without a fault, the order columns are in
      the result, the filter has a scope, and the keys of every row fit a token. */
  ghost predicate Smooth(w: Walk, db: Database) {
    && (forall n :: db.FaultAt(n) == NO_FAULT)
    && Aligned(db.snapshot.fields, w.orders)
    && |w.orders| <= MAX_CURSOR_KEYS
    && Scope(w).Some?
    && forall r :: r in w.base ==> CursorText(w.codec, Scope(w).value, w.orders, KeyCells(w.orders, r)).Ok?
  }

  lemma PreparedIsReadable(w: Walk, c: nat, size: Uint)
    requires Settled(w) && c <= |w.all| && Scope(w).Some?
    ensures
      var st := Prepared(w.q.sql, w.orders, KeysAfter(w, c), w.args, size, Scope(w).value);
      ReadStatement(w.q.sql, st.rows).Some?
  {
    WalkIsDistinguished(w);
    var out := PreparedHasAnOutcome(w.q.sql, w.orders, KeysAfter(w, c), w.args, size, Scope(w).value, w.base);
  }

  /** On a smooth walk every page comes out. */
  lemma PageComesOut(w: Walk, db: Database, c: nat, size: Uint, s: Stream, st: CursorStatement)
    requires Settled(w) && Smooth(w, db) && c <= |w.all| && GoodSize(size)
    requires st.orders == w.orders && Scope(w) == Some(st.scope)
    requires s.fields == db.snapshot.fields && Unbroken(s)
    requires s.rows == Take(w.all[c..], size + 1)
    ensures PageOf(w.codec, st, s, size).Ok?
  {
    assert !RowsFail(s, size);
    if |s.rows| > size {
      assert s.rows[size - 1] == w.all[c + size - 1];
      RowsOfWalk(w, c + size - 1);
    }
  }

  lemma AnswerToPrepared(w: Walk, c: nat, size: Uint, snapshot: Snapshot, fault: Fault, s: Stream)
    requires Settled(w) && c <= |w.all| && GoodSize(size) && Scope(w).Some?
    requires |w.args| == snapshot.argc && snapshot.rows(w.args) == w.base
    ensures
      var st := Prepared(w.q.sql, w.orders, KeysAfter(w, c), w.args, size, Scope(w).value);
      && |st.args| >= snapshot.argc
      && (Answers(s, snapshot, fault, w.q.sql, st.rows, st.args) && s.failure == None ==>
            s.rows == Take(w.all[c..], size + 1))
  {
    var st := Prepared(w.q.sql, w.orders, KeysAfter(w, c), w.args, size, Scope(w).value);
    assert st.args[..|w.args|] == w.args;
    if Answers(s, snapshot, fault, w.q.sql, st.rows, st.args) && s.failure == None {
      AnswerAt(w, c, size, s.rows);
    }
  }

  /** Once the statement is built, an answer to it is the next rows. */
  lemma AnswersAreNextRows(w: Walk, c: nat, req: CursorRequest, snapshot: Snapshot, fault: Fault, s: Stream)
    requires Settled(w) && At(w, c, req.after) && GoodSize(req.size) && req.sort == w.sort
    requires |w.args| == snapshot.argc && snapshot.rows(w.args) == w.base
    requires |w.orders| <= MAX_CURSOR_KEYS && Scope(w).Some?
    ensures
      var built := BuiltFor(w, req);
      && built.Ok? && built.value.orders == w.orders && built.value.scope == Scope(w).value
      && |built.value.args| >= snapshot.argc
      && (Answers(s, snapshot, fault, w.q.sql, built.value.rows, built.value.args) && s.failure == None ==>
            s.rows == Take(w.all[c..], req.size + 1))
  {
    assert req == CursorRequest(req.size, req.after, w.sort);
    BuiltAt(w, c, req.after, req.size);
    AnswerToPrepared(w, c, req.size, snapshot, fault, s);
  }

  /** A call that succeeds brings the next page. */
  lemma SuccessIsNextPage(w: Walk, c: nat, req: CursorRequest, snapshot: Snapshot, fault: Fault, s: Stream,
                          r: Result<CursorResult>)
    requires Settled(w) && At(w, c, req.after) && GoodSize(req.size) && req.sort == w.sort
    requires |w.args| == snapshot.argc && snapshot.rows(w.args) == w.base
    requires CallOutcome(w.codec, w.q.sql, BuiltFor(w, req), req.size, snapshot, fault, s, r) && r.Ok?
    ensures NextPage(w, c, req.size, r.value)
  {
    BuiltMeansScoped(w, req);
    AnswersAreNextRows(w, c, req, snapshot, fault, s);
    PageAt(w, c, req.size, s, BuiltFor(w, req).value, r.value);
  }

  /** On a smooth walk every call succeeds. */
  lemma SmoothSucceeds(w: Walk, db: Database, c: nat, req: CursorRequest, fault: Fault, s: Stream,
                       r: Result<CursorResult>)
    requires Settled(w) && Smooth(w, db) && At(w, c, req.after) && GoodSize(req.size) && req.sort == w.sort
    requires |w.args| == db.snapshot.argc && db.snapshot.rows(w.args) == w.base
    requires CallOutcome(w.codec, w.q.sql, BuiltFor(w, req), req.size, db.snapshot, fault, s, r) && fault == NO_FAULT
    ensures r.Ok?
  {
    AnswersAreNextRows(w, c, req, db.snapshot, fault, s);
    assert req == CursorRequest(req.size, req.after, w.sort);
    BuiltAt(w, c, req.after, req.size);
    PreparedIsReadable(w, c, req.size);
    PageComesOut(w, db, c, req.size, s, BuiltFor(w, req).value);
  }

  /** One call of a walk, from the cursor held after c rows. */
  method FetchNext(db: Database, codec: Codec, q: PageQuery, model: Option<Whitelist.Model>, req: CursorRequest,
                   args: array<GoValue>, argc: nat, cache: Whitelist.SortableCache, ghost w: Walk, ghost c: nat)
    returns (r: Result<CursorResult>)
    requires argc <= args.Length && w == Walk(codec, q, model, req.sort, args[..argc], w.orders, w.base, w.all)
    requires Settled(w) && At(w, c, req.after) && GoodSize(req.size)
    requires WellFormed(db.snapshot) && argc == db.snapshot.argc && db.snapshot.rows(w.args) == w.base
    requires Whitelist.Faithful(cache.entries)
    modifies db, cache
    ensures Whitelist.Faithful(cache.entries)
    ensures Smooth(w, db) ==> r.Ok?
    ensures r.Ok? ==> NextPage(w, c, req.size, r.value)
  {
    ghost var fault := db.FaultAt(db.queries);
    r := CollectAfter(db, codec, q, model, req, args, argc, cache);
    ghost var s := db.LastStream();
    if r.Ok? { SuccessIsNextPage(w, c, req, db.snapshot, fault, s, r); }
    if Smooth(w, db) { SmoothSucceeds(w, db, c, req, fault, s, r); }
  }

  /** Put after the rows before it, the next page goes on along the sorted result. */
  lemma PageExtends(w: Walk, rows: seq<Row>, size: nat, page: CursorResult)
    requires rows <= w.all && size > 0 && NextPage(w, |rows|, size, page)
    ensures rows + page.list <= w.all
    ensures page.hasMore ==>
              |page.list| == size && |rows + page.list| < |w.all| && At(w, |rows + page.list|, page.nextCursor)
    ensures !page.hasMore ==> rows + page.list == w.all
  {
    NextRowsExtend(w.all, size, rows, page.list);
  }

  /** A client's loop: fetch, keep the rows, and go on with NextCursor while HasMore, with any
      positive page sizes. The pages put together are the sorted result from its first row on; if
      no call fails they are the whole of it, each row once. On a smooth walk no call fails. */
  method FetchAll(db: Database, codec: Codec, q: PageQuery, model: Option<Whitelist.Model>, sort: seq<string>,
                  sizes: nat -> Uint, args: array<GoValue>, argc: nat, cache: Whitelist.SortableCache, ghost w: Walk)
    returns (rows: seq<Row>, failure: Option<Error>)
    requires argc <= args.Length && w == Walk(codec, q, model, sort, args[..argc], w.orders, w.base, w.all)
    requires Settled(w) && forall n :: GoodSize(sizes(n))
    requires WellFormed(db.snapshot) && argc == db.snapshot.argc && db.snapshot.rows(w.args) == w.base
    requires Whitelist.Faithful(cache.entries)
    modifies db, cache
    ensures rows <= w.all
    ensures failure == None ==> rows == w.all
    ensures Smooth(w, db) ==> failure == None
  {
    rows := [];
    var after, n := "", 0;
    while true
      invariant rows <= w.all && At(w, |rows|, after)
      invariant Whitelist.Faithful(cache.entries)
      decreases |w.all| - |rows|
    {
      var r := FetchNext(db, codec, q, model, CursorRequest(sizes(n), after, sort), args, argc, cache, w, |rows|);
      if r.Err? {
        return rows, Some(r.error);
      }
      PageExtends(w, rows, sizes(n), r.value);
      rows := rows + r.value.list;
      if !r.value.hasMore {
        return rows, None;
      }
      after := r.value.nextCursor;
      n := n + 1;
    }
  }
}
