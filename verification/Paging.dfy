/** The end-to-end meaning of BuildAfter: the text and arguments it prepares ask the database for
    the rows after the cursor, and its tokens bring it back to where they were made. */
module Paging {
  import opened Wrappers
  import opened Keyset
  import opened Request
  import opened Statement
  import opened StatementReader
  import opened NextRows
  import opened Cursor
  import opened Query
  import Resolve
  import Seek
  import Whitelist

  /** Where a page with these key values starts: at the top, or after the cursor. */
  function RowsFrom(orders: seq<Order>, values: seq<GoValue>, all: seq<Row>): seq<Row>
    requires values == [] || |values| == |orders|
  {
    if values == [] then all else Keep(all, AfterCursor(orders, values))
  }

  /** Whatever the database returns for the prepared text and arguments is, in order, the first
      size + 1 rows from the cursor on. */
  lemma PreparedAsksForNextRows(sql: string, orders: seq<Order>, values: seq<GoValue>, args: seq<GoValue>, size: Uint,
                                scope: string, base: seq<Row>, all: seq<Row>, out: seq<Row>)
    requires Renderable(orders) && GoodSize(size)
    requires NilBytes !in values && (values == [] || |values| == |orders|)
    requires Ordered(orders, base, all) && Distinguished(orders, multiset(base))
    requires
      var st := Prepared(sql, orders, values, args, size, scope);
      TextOutcome(sql, st.rows, base, st.args, out)
    ensures out == Take(RowsFrom(orders, values, all), size + 1)
  {
    var params := ParamsFor(values, args, size);
    var keys := KeysFor(orders, values, |args|);
    var st := AfterStatement(orders, keys, |params|);
    AfterIsWritable(orders, keys, |params|);
    TextMeansTheStatement(sql, st, base, params, out);
    LimitIsWired(values, args, size);
    if values == [] {
      FirstPageStartsAtTheTop(orders, params, |params|, base, all, out);
    } else {
      KeysAreWired(orders, values, args, [Bigint(Plus(size, 1))]);
      assert orders[..|values|] == orders;
      PageIsNextRows(keys, orders, values, params, |params|, base, all, out);
    }
  }

  /** The key values a request's cursor holds. */
  function CursorValues(codec: Codec, q: PageQuery, model: Option<Whitelist.Model>, req: CursorRequest,
                        args: seq<GoValue>)
    : seq<GoValue>
    requires Built(codec, q, model, req, args).Ok?
  {
    var st := Built(codec, q, model, req, args).value;
    if req.after == "" then [] else DecodedCursor(codec, req.after, st.scope, |st.orders|).value
  }

  lemma BuiltIsPrepared(codec: Codec, q: PageQuery, model: Option<Whitelist.Model>, req: CursorRequest,
                        args: seq<GoValue>)
    requires Lawful(codec) && WellMade(q) && Built(codec, q, model, req, args).Ok?
    ensures
      var st, values := Built(codec, q, model, req, args).value, CursorValues(codec, q, model, req, args);
      && GoodSize(req.size) && NilBytes !in values
      && (values == [] || |values| == |st.orders|)
      && OrdersFor(q, model, req.sort) == Ok(st.orders)
      && st == Prepared(q.sql, st.orders, values, args, req.size, st.scope)
  {
    if req.after != "" {
      var st := Built(codec, q, model, req, args).value;
      DecodedAreDecodable(codec, req.after, st.scope, |st.orders|);
    }
  }

  /** Whatever cursor a request brings, if the builder accepts it the page is the next rows: every
      result the database may return for the built statement is the first size + 1 rows strictly
      after the keys the cursor holds. */
  lemma BuiltAsksForNextRows(codec: Codec, q: PageQuery, model: Option<Whitelist.Model>, req: CursorRequest,
                             args: seq<GoValue>, base: seq<Row>, all: seq<Row>, out: seq<Row>)
    requires Lawful(codec) && WellMade(q) && Built(codec, q, model, req, args).Ok?
    requires
      var st := Built(codec, q, model, req, args).value;
      && Resolve.TieDistinguishes(q.tie, base) && Ordered(st.orders, base, all)
      && TextOutcome(q.sql, st.rows, base, st.args, out)
    ensures
      var st, values := Built(codec, q, model, req, args).value, CursorValues(codec, q, model, req, args);
      && (values == [] || |values| == |st.orders|)
      && out == Take(RowsFrom(st.orders, values, all), req.size + 1)
  {
    var st, values := Built(codec, q, model, req, args).value, CursorValues(codec, q, model, req, args);
    BuiltIsPrepared(codec, q, model, req, args);
    ResolvedIsRenderable(q, model, req.sort);
    OrdersDistinguish(q, model, req.sort, base);
    PreparedAsksForNextRows(q.sql, st.orders, values, args, req.size, st.scope, base, all, out);
  }

  /** The database has an answer. */
  lemma PreparedHasAnOutcome(sql: string, orders: seq<Order>, values: seq<GoValue>, args: seq<GoValue>, size: Uint,
                             scope: string, base: seq<Row>) returns (out: seq<Row>)
    requires Renderable(orders) && |values| <= |orders|
    ensures
      var st := Prepared(sql, orders, values, args, size, scope);
      TextOutcome(sql, st.rows, base, st.args, out)
  {
    var params := ParamsFor(values, args, size);
    var st := AfterStatement(orders, KeysFor(orders, values, |args|), |params|);
    out := Run(st, base, params);
    RunIsAnOutcome(st, base, params);
    AfterIsWritable(orders, KeysFor(orders, values, |args|), |params|);
    TextMeansTheStatement(sql, st, base, params, out);
  }

  predicate Exact(codec: Codec, keys: seq<GoValue>) {
    forall i :: 0 <= i < |keys| && keys[i].Scalar? ==> codec.exact(keys[i])
  }

  /** A token made of a statement's keys, given back to a query with the same SQL, order and
      arguments, prepares the statement for those very keys, at any valid size; it is refused
      exactly if one of the keys is a nil byte slice. */
  lemma TokenThroughTheBuilder(codec: Codec, first: CursorStatement, keys: seq<GoValue>, token: string,
                               q: PageQuery, model: Option<Whitelist.Model>, req: CursorRequest, args: seq<GoValue>)
    requires Lawful(codec) && Exact(codec, keys)
    requires codec.scopeHash(q.sql, first.orders, args) == Some(first.scope)
    requires CursorText(codec, first.scope, first.orders, keys) == Ok(token)
    requires q.sql != "" && GoodSize(req.size) && req.after == token
    requires OrdersFor(q, model, req.sort) == Ok(first.orders) && |first.orders| <= MAX_CURSOR_KEYS
    ensures |keys| == |first.orders|
    ensures Built(codec, q, model, req, args)
         == if NilBytes in keys then Err(ErrInvalidCursor)
            else Ok(Prepared(q.sql, first.orders, keys, args, req.size, first.scope))
  {
    TokenRoundTrip(codec, first.scope, first.orders, keys, token);
  }

  /** With another scope, or another number of columns, the builder refuses the token. */
  lemma TokenIsBound(codec: Codec, first: CursorStatement, keys: seq<GoValue>, token: string,
                     q: PageQuery, model: Option<Whitelist.Model>, req: CursorRequest, args: seq<GoValue>)
    requires Lawful(codec) && Exact(codec, keys)
    requires IsScope(codec, first.scope)
    requires CursorText(codec, first.scope, first.orders, keys) == Ok(token)
    requires req.after == token
    requires Built(codec, q, model, req, args).Ok?
    ensures codec.scopeHash(q.sql, OrdersFor(q, model, req.sort).value, args) == Some(first.scope)
    ensures |OrdersFor(q, model, req.sort).value| == |first.orders|
    ensures NilBytes !in keys
  {
    TokenRoundTrip(codec, first.scope, first.orders, keys, token);
  }

  lemma {:induction false} KeysKeepOrders(orders: seq<Order>, values: seq<GoValue>, argc: nat)
    requires |values| <= |orders|
    ensures forall i :: 0 <= i < |values| ==>
              && KeysFor(orders, values, argc)[i].order == orders[i]
              && (KeysFor(orders, values, argc)[i].position == None <==> values[i] == Nil)
  {
    if values == [] {
    } else {
      KeysKeepOrders(orders, values[..|values| - 1], argc);
    }
  }

  /** If what comes before the tie goes one way, the tie follows it, and a cursor without NULLs is
      sought by one row comparison; with every column's NULLs first, by nothing else. */
  lemma OneDirectionSeeksByRow(q: PageQuery, model: Option<Whitelist.Model>, sort: seq<string>, requested: seq<Order>,
                               desc: bool, values: seq<GoValue>, argc: nat)
    requires WhitelistFor(q, model, sort).Ok?
    requires Resolve.Requested(WhitelistFor(q, model, sort).value, sort) == Ok(requested)
    requires q.head + requested != [] && forall o :: o in q.head + requested ==> o.desc == desc
    requires |values| == |OrdersFor(q, model, sort).value| > 0 && Nil !in values
    ensures
      var orders := OrdersFor(q, model, sort).value;
      var keys := KeysFor(orders, values, argc);
      && Seek.Uniform(keys)
      && Seek.AfterPredicates(keys)[0] == Seek.TuplePredicate(keys)
      && ((forall o :: o in orders ==> NullSide(o) == -1) ==> Seek.AfterPredicates(keys) == [Seek.TuplePredicate(keys)])
  {
    var orders := OrdersFor(q, model, sort).value;
    var keys := KeysFor(orders, values, argc);
    Resolve.TieFollowsDirection(q.head, q.tie, WhitelistFor(q, model, sort).value, sort, requested, desc);
    KeysKeepOrders(orders, values, argc);
    forall i | 0 <= i < |keys| ensures keys[i].order.desc == desc && keys[i].position.Some? {
      assert keys[i].order == orders[i] && orders[i] in orders && values[i] in values;
    }
    Seek.SinglePredicateIffNullsFirst(keys);
  }
}
