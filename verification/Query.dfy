/** Page queries: how one is made, and how it prepares a keyset page (Make and BuildAfter,
    page/query.go). */
module Query {
  import opened Wrappers
  import opened Keyset
  import opened Request
  import opened Statement
  import opened StatementText
  import opened StatementReader
  import opened PredicateReader
  import opened Cursor
  import OrderText
  import Resolve
  import Seek
  import SortText
  import Whitelist

  type Cols = Resolve.Cols

  const MAX_CURSOR_KEYS := 32

  datatype PageQuery = PageQuery(sql: string, countSQL: string, head: seq<Order>, tie: seq<Order>,
                                 sortable: Option<Cols>, tagKey: string)

  datatype QueryOption =
    | Head(orders: seq<Order>)
    | Tie(orders: seq<Order>)
    | Sortable(cols: Option<Cols>)
    | SortKeyTag(tag: string)
    | CountSQL(sql: string)

  // ---- Make -------------------------------------------------------------------------------

  function Validate(order: Order): Option<Error> {
    if order.nulls.NullsUnknown? then Some(ErrInvalidNulls)
    else if !Whitelist.ValidColumn(order.column) then Some(ErrInvalidColumn)
    else None
  }

  /** An order is refused exactly for an unknown NULL placement, or else for its column. */
  lemma ValidateIsExact(order: Order)
    ensures Validate(order) == None <==>
            order.nulls in {NullsDefault, NullsFirst, NullsLast} && Whitelist.Nameable(order.column)
    ensures Validate(order) == Some(ErrInvalidNulls) <==> order.nulls !in {NullsDefault, NullsFirst, NullsLast}
    ensures Validate(order) == Some(ErrInvalidColumn) <==>
            order.nulls in {NullsDefault, NullsFirst, NullsLast} && !Whitelist.Nameable(order.column)
  {
    Whitelist.ValidIsNameable(order.column);
  }

  predicate AllValid(orders: seq<Order>) {
    forall i :: 0 <= i < |orders| ==> Validate(orders[i]) == None
  }

  predicate CleanCols(cols: Cols) {
    forall key :: key in cols ==> Whitelist.Nameable(cols[key])
  }

  /** What Make guarantees of a query. */
  predicate WellMade(q: PageQuery) {
    && q.sql != "" && q.tie != []
    && AllValid(q.head) && AllValid(q.tie)
    && (q.sortable.Some? ==> CleanCols(q.sortable.value))
  }

  function ApplyOption(q: PageQuery, option: QueryOption): PageQuery {
    match option
    case Head(orders) => q.(head := q.head + orders)
    case Tie(orders) => q.(tie := q.tie + orders)
    case Sortable(cols) => q.(sortable := cols)
    case SortKeyTag(tag) => q.(tagKey := tag)
    case CountSQL(sql) => q.(countSQL := sql)
  }

  function ApplyOptions(q: PageQuery, options: seq<QueryOption>): PageQuery {
    if options == [] then q else ApplyOption(ApplyOptions(q, options[..|options| - 1]), options[|options| - 1])
  }

  /** The orders the options pin in front, one option after another, and those of the tie. */
  function HeadOrders(options: seq<QueryOption>): seq<Order> {
    if options == [] then []
    else (if options[0].Head? then options[0].orders else []) + HeadOrders(options[1..])
  }

  function TieOrders(options: seq<QueryOption>): seq<Order> {
    if options == [] then []
    else (if options[0].Tie? then options[0].orders else []) + TieOrders(options[1..])
  }

  /** The last option of a kind, if there is one. */
  function LastOne(options: seq<QueryOption>, isKind: QueryOption -> bool): (last: Option<QueryOption>)
    ensures last.Some? ==> isKind(last.value)
  {
    if options == [] then None
    else if LastOne(options[1..], isKind).Some? then LastOne(options[1..], isKind)
    else if isKind(options[0]) then Some(options[0])
    else None
  }

  /** What the options come to: orders add up, and of the rest the last one counts. */
  predicate SetBy(q: PageQuery, sql: string, options: seq<QueryOption>) {
    && q.sql == sql && q.head == HeadOrders(options) && q.tie == TieOrders(options)
    && (match LastOne(options, (o: QueryOption) => o.Sortable?)
        case Some(o) => q.sortable == o.cols
        case None => q.sortable == None)
    && (match LastOne(options, (o: QueryOption) => o.SortKeyTag?)
        case Some(o) => q.tagKey == o.tag
        case None => q.tagKey == "")
    && (match LastOne(options, (o: QueryOption) => o.CountSQL?)
        case Some(o) => q.countSQL == o.sql
        case None => q.countSQL == "")
  }

  lemma OrdersAssociate(a: seq<Order>, b: seq<Order>, c: seq<Order>)
    ensures a + (b + c) == (a + b) + c
  {
  }

  lemma {:induction false} HeadOrdersNext(front: seq<QueryOption>, o: QueryOption)
    ensures HeadOrders(front + [o]) == HeadOrders(front) + (if o.Head? then o.orders else [])
  {
    if front == [] {
      assert (front + [o])[1..] == [];
    } else {
      assert (front + [o])[1..] == front[1..] + [o] && (front + [o])[0] == front[0];
      HeadOrdersNext(front[1..], o);
      OrdersAssociate(if front[0].Head? then front[0].orders else [], HeadOrders(front[1..]),
                      if o.Head? then o.orders else []);
    }
  }

  lemma {:induction false} TieOrdersNext(front: seq<QueryOption>, o: QueryOption)
    ensures TieOrders(front + [o]) == TieOrders(front) + (if o.Tie? then o.orders else [])
  {
    if front == [] {
      assert (front + [o])[1..] == [];
    } else {
      assert (front + [o])[1..] == front[1..] + [o] && (front + [o])[0] == front[0];
      TieOrdersNext(front[1..], o);
      OrdersAssociate(if front[0].Tie? then front[0].orders else [], TieOrders(front[1..]),
                      if o.Tie? then o.orders else []);
    }
  }

  lemma {:induction false} LastOneNext(front: seq<QueryOption>, o: QueryOption, isKind: QueryOption -> bool)
    ensures LastOne(front + [o], isKind) == if isKind(o) then Some(o) else LastOne(front, isKind)
  {
    if front == [] {
      assert (front + [o])[1..] == [];
    } else {
      assert (front + [o])[1..] == front[1..] + [o];
      LastOneNext(front[1..], o, isKind);
    }
  }

  lemma OptionSets(q: PageQuery, sql: string, front: seq<QueryOption>, o: QueryOption)
    requires SetBy(q, sql, front)
    ensures SetBy(ApplyOption(q, o), sql, front + [o])
  {
    HeadOrdersNext(front, o);
    TieOrdersNext(front, o);
    LastOneNext(front, o, (o: QueryOption) => o.Sortable?);
    LastOneNext(front, o, (o: QueryOption) => o.SortKeyTag?);
    LastOneNext(front, o, (o: QueryOption) => o.CountSQL?);
  }

  /** Applied in turn, the options come to that. */
  lemma {:induction false} OptionsSet(sql: string, options: seq<QueryOption>)
    ensures SetBy(ApplyOptions(PageQuery(sql, "", [], [], None, ""), options), sql, options)
  {
    if options == [] {
    } else {
      var n := |options| - 1;
      OptionsSet(sql, options[..n]);
      OptionSets(ApplyOptions(PageQuery(sql, "", [], [], None, ""), options[..n]), sql, options[..n], options[n]);
      assert options == options[..n] + [options[n]];
    }
  }

  /** The first error among the orders. */
  function FirstInvalid(orders: seq<Order>): (failure: Option<Error>)
    ensures failure == None <==> AllValid(orders)
  {
    if orders == [] then None
    else if Validate(orders[0]).Some? then Validate(orders[0])
    else FirstInvalid(orders[1..])
  }

  method ValidateAll(orders: seq<Order>) returns (failure: Option<Error>)
    ensures failure == FirstInvalid(orders)
  {
    for i := 0 to |orders|
      invariant FirstInvalid(orders) == FirstInvalid(orders[i..])
    {
      failure := Validate(orders[i]);
      if failure.Some? {
        return;
      }
    }
    failure := None;
  }

  /** What Make makes of the options: the query as set, its whitelist folded, or the first error. A
      whitelist that does not fold may have several defects; which one is met is up to map order. */
  ghost predicate MadeFrom(q: PageQuery, r: Result<PageQuery>) {
    if q.sql == "" then r == Err(ErrNoSQL)
    else if q.tie == [] then r == Err(ErrNoTie)
    else if FirstInvalid(q.head).Some? then r == Err(FirstInvalid(q.head).value)
    else if FirstInvalid(q.tie).Some? then r == Err(FirstInvalid(q.tie).value)
    else if q.sortable.None? then r == Ok(q)
    else if Foldable(q.sortable.value) then
      r.Ok? && r.value.sortable.Some? && Whitelist.FoldedFrom(r.value.sortable.value, q.sortable.value)
      && r.value == q.(sortable := r.value.sortable)
    else r.Err? && Whitelist.HasDefect(q.sortable.value, r.error)
  }

  ghost predicate Foldable(cols: Cols) {
    Whitelist.FoldsWithoutConflict(cols) && "" !in cols && forall f :: f in cols ==> Whitelist.Nameable(cols[f])
  }

  /** The zero query, which every builder refuses, or one that Make returned: a caller can have no
      other. */
  predicate Obtained(q: PageQuery) { q.sql == "" || WellMade(q) }

  /** The base and count texts come here without their trailing semicolons and spaces. */
  method Make(sql: string, options: seq<QueryOption>) returns (r: Result<PageQuery>)
    ensures exists q :: SetBy(q, sql, options) && MadeFrom(q, r)
    ensures r.Ok? ==> WellMade(r.value)
  {
    var q := PageQuery(sql, "", [], [], None, "");
    for i := 0 to |options|
      invariant q == ApplyOptions(PageQuery(sql, "", [], [], None, ""), options[..i])
    {
      assert options[..i + 1][..i] == options[..i];
      q := ApplyOption(q, options[i]);
    }
    assert options[..|options|] == options;
    OptionsSet(sql, options);
    if q.sql == "" {
      return Err(ErrNoSQL);
    }
    if q.tie == [] {
      return Err(ErrNoTie);
    }
    var failure := ValidateAll(q.head);
    if failure.Some? {
      return Err(failure.value);
    }
    failure := ValidateAll(q.tie);
    if failure.Some? {
      return Err(failure.value);
    }
    if q.sortable.Some? {
      var folded := Whitelist.FoldSortable(q.sortable.value);
      if folded.Err? {
        return Err(folded.error);
      }
      q := q.(sortable := Some(folded.value));
    }
    r := Ok(q);
  }

  // ---- The order of a request -------------------------------------------------------------

  /** The whitelist of a request: given, or derived from the model when a sort asks for it. */
  function WhitelistFor(q: PageQuery, model: Option<Whitelist.Model>, sort: seq<string>): Result<Cols> {
    if q.sortable.None? && sort != [] && q.tagKey != "" then Whitelist.Derived(model, q.tagKey)
    else Ok(if q.sortable.Some? then q.sortable.value else map[])
  }

  function OrdersFor(q: PageQuery, model: Option<Whitelist.Model>, sort: seq<string>): Result<seq<Order>> {
    match WhitelistFor(q, model, sort)
    case Err(e) => Err(e)
    case Ok(cols) => Resolve.Resolved(q.head, q.tie, cols, sort)
  }

  method Orders(q: PageQuery, model: Option<Whitelist.Model>, sort: seq<string>, cache: Whitelist.SortableCache)
    returns (r: Result<seq<Order>>)
    requires Whitelist.Faithful(cache.entries)
    modifies cache
    ensures Whitelist.Faithful(cache.entries)
    ensures r == OrdersFor(q, model, sort)
  {
    var cols: Cols := if q.sortable.Some? then q.sortable.value else map[];
    if q.sortable.None? && sort != [] && q.tagKey != "" {
      var derived := cache.SortableOf(model, q.tagKey);
      if derived.Err? {
        return Err(derived.error);
      }
      cols := derived.value;
    }
    r := Resolve.ResolveOrders(q.head, q.tie, cols, sort);
  }

  /** A client cannot sort at all without a whitelist or a tag to derive one by. */
  lemma SortNeedsAWhitelist(q: PageQuery, model: Option<Whitelist.Model>, sort: seq<string>)
    requires q.sortable.None? && q.tagKey == "" && sort != []
    ensures OrdersFor(q, model, sort).Err?
  {
    Resolve.RequestedIsAsked(map[], sort);
  }

  /** The model is read only if a sort asks for it and no whitelist is given. */
  lemma ModelMattersOnlyToSort(q: PageQuery, a: Option<Whitelist.Model>, b: Option<Whitelist.Model>, sort: seq<string>)
    requires q.sortable.Some? || sort == [] || q.tagKey == ""
    ensures OrdersFor(q, a, sort) == OrdersFor(q, b, sort)
  {
  }

  /** A name of the given whitelist asks for its column. */
  lemma SortByTheWhitelist(q: PageQuery, model: Option<Whitelist.Model>, field: string, name: string)
    requires q.sortable.Some? && SortText.Plainly(field) && Resolve.NamedBy(q.sortable.value, field, name)
    ensures
      var asked := Order(q.sortable.value[name], false, NullsDefault);
      OrdersFor(q, model, [field]).Ok?
      && Resolve.TieInPlace(Resolve.FirstMentions(q.head + [asked]), Resolve.FirstMentions(q.head + [asked] + q.tie),
                            OrdersFor(q, model, [field]).value)
  {
    Resolve.FieldAndDirection(q.sortable.value, field, name, false);
    AskForOne(q, q.sortable.value, field, Order(q.sortable.value[name], false, NullsDefault));
  }

  /** A name the model's fields stand for asks for their column. */
  lemma SortByTheModel(q: PageQuery, model: Whitelist.Model, field: string, name: string, column: string)
    requires q.sortable.None? && q.tagKey != "" && SortText.Plainly(field)
    requires Whitelist.IsStruct(model) && Whitelist.NamesAgree(model, q.tagKey)
    requires Whitelist.ModelNames(model, q.tagKey, name, column) && SortText.SameButCase(field, name)
    ensures
      var asked := Order(column, false, NullsDefault);
      OrdersFor(q, Some(model), [field]).Ok?
      && Resolve.TieInPlace(Resolve.FirstMentions(q.head + [asked]), Resolve.FirstMentions(q.head + [asked] + q.tie),
                            OrdersFor(q, Some(model), [field]).value)
  {
    Whitelist.DerivedIsNamed(model, q.tagKey);
    var cols, key := Whitelist.Derived(Some(model), q.tagKey).value, SortText.ToLower(field);
    SortText.FoldsAlike(field, name);
    Resolve.NameIsFolded(cols, field, key);
    Resolve.FieldAndDirection(cols, field, key, false);
    AskForOne(q, cols, field, Order(column, false, NullsDefault));
  }

  lemma AskForOne(q: PageQuery, cols: Cols, field: string, asked: Order)
    requires Resolve.RequestedOne(cols, field) == Ok(asked)
    ensures Resolve.Resolved(q.head, q.tie, cols, [field]).Ok?
    ensures Resolve.TieInPlace(Resolve.FirstMentions(q.head + [asked]), Resolve.FirstMentions(q.head + [asked] + q.tie),
                               Resolve.Resolved(q.head, q.tie, cols, [field]).value)
  {
    Resolve.OneByOneRequested(cols, [field], [asked]);
    Resolve.RequestedInPlace(q.head, q.tie, cols, [field], [asked]);
  }

  // ---- The keys and their placeholders ----------------------------------------------------

  /** The keys that take a placeholder: all but NULL. */
  function Bound(values: seq<GoValue>): seq<GoValue> {
    if values == [] then []
    else Bound(values[..|values| - 1]) + (if values[|values| - 1] == Nil then [] else [values[|values| - 1]])
  }

  /** The key of each value; those that take a placeholder are numbered on from argc. */
  function KeysFor(orders: seq<Order>, values: seq<GoValue>, argc: nat): (keys: seq<Seek.CursorKey>)
    requires |values| <= |orders|
    ensures |keys| == |values|
  {
    if values == [] then []
    else
      var n := |values| - 1;
      KeysFor(orders, values[..n], argc)
      + [Seek.CursorKey(orders[n], if values[n] == Nil then None else Some(argc + |Bound(values[..n])| + 1))]
  }

  /** Placeholder wiring: the arguments are the caller's, then the non-NULL keys in order, then
      whatever is added; each key's placeholder resolves to its own value. */
  lemma {:induction false} KeysAreWired(orders: seq<Order>, values: seq<GoValue>, args: seq<GoValue>,
                                        more: seq<GoValue>)
    requires |values| <= |orders|
    ensures Seek.Wired(KeysFor(orders, values, |args|), orders[..|values|], values, args + Bound(values) + more)
  {
    if values == [] {
    } else {
      var n := |values| - 1;
      var last := if values[n] == Nil then [] else [values[n]];
      KeysAreWired(orders, values[..n], args, last + more);
      assert args + Bound(values[..n]) + (last + more) == args + Bound(values) + more;
      assert orders[..|values|][..n] == orders[..n];
    }
  }

  lemma NextKey(orders: seq<Order>, values: seq<GoValue>, argc: nat, i: nat)
    requires i < |values| <= |orders|
    ensures
      var position := if values[i] == Nil then None else Some(argc + |Bound(values[..i])| + 1);
      KeysFor(orders, values[..i + 1], argc)
        == KeysFor(orders, values[..i], argc) + [Seek.CursorKey(orders[i], position)]
    ensures Bound(values[..i + 1]) == Bound(values[..i]) + (if values[i] == Nil then [] else [values[i]])
  {
    assert values[..i + 1][..i] == values[..i];
  }

  /** prepareCursorKeys. The caller's arguments are the first argc elements of an array that may
      hold more; they are copied, and the array is not written. The new array has room for the
      limit. */
  method PrepareCursorKeys(orders: seq<Order>, values: seq<GoValue>, args: array<GoValue>, argc: nat)
    returns (keys: seq<Seek.CursorKey>, params: array<GoValue>, count: nat)
    requires |values| <= |orders| && argc <= args.Length
    ensures fresh(params) && count < params.Length
    ensures keys == KeysFor(orders, values, argc)
    ensures params[..count] == args[..argc] + Bound(values)
  {
    params := new GoValue[argc + |values| + 1](_ => Nil);
    for i := 0 to argc
      invariant params[..i] == args[..i]
    {
      params[i] := args[i];
    }
    count := argc;
    keys := [];
    for i := 0 to |values|
      invariant argc <= count <= argc + i
      invariant keys == KeysFor(orders, values[..i], argc)
      invariant params[..count] == args[..argc] + Bound(values[..i])
    {
      NextKey(orders, values, argc, i);
      var position: Option<nat> := None;
      if values[i] != Nil {
        ghost var before := params[..count];
        params[count] := values[i];
        count := count + 1;
        assert params[..count] == before + [values[i]];
        position := Some(count);
      }
      keys := keys + [Seek.CursorKey(orders[i], position)];
    }
    assert values[..|values|] == values;
  }

  // ---- BuildAfter -------------------------------------------------------------------------

  /** Treat as immutable: the text, its arguments, the columns of the next cursor, its scope. */
  datatype CursorStatement = CursorStatement(rows: string, args: seq<GoValue>, orders: seq<Order>, scope: string)

  /** A limit or an offset, as an argument. */
  function Bigint(n: Uint): GoValue { Scalar(KUint, n as real) }

  lemma BigintIsWired(args: seq<GoValue>, position: nat, n: Uint)
    requires 1 <= position <= |args| && args[position - 1] == Bigint(n)
    ensures LimitOf(args, position) == n
  {
    assert (n as real).Floor == n;
  }

  function ParamsFor(values: seq<GoValue>, args: seq<GoValue>, size: Uint): (params: seq<GoValue>)
    ensures params != []
  {
    args + Bound(values) + [Bigint(Plus(size, 1))]
  }

  /** The statement for these keys. */
  function Prepared(sql: string, orders: seq<Order>, values: seq<GoValue>, args: seq<GoValue>, size: Uint,
                    scope: string)
    : CursorStatement
    requires |values| <= |orders|
  {
    var params := ParamsFor(values, args, size);
    var st := AfterStatement(orders, KeysFor(orders, values, |args|), |params|);
    CursorStatement(StatementSQL(sql, st), params, orders, scope)
  }

  predicate GoodSize(size: Uint) { 0 < size < MAX_INT64 }

  function Built(codec: Codec, q: PageQuery, model: Option<Whitelist.Model>, req: CursorRequest,
                 args: seq<GoValue>)
    : Result<CursorStatement>
  {
    if q.sql == "" then Err(ErrNoSQL)
    else if !GoodSize(req.size) then Err(ErrInvalidRequest)
    else
      match OrdersFor(q, model, req.sort)
      case Err(e) => Err(e)
      case Ok(orders) =>
        if |orders| > MAX_CURSOR_KEYS then Err(ErrInvalidRequest)
        else
          match codec.scopeHash(q.sql, orders, args)
          case None => Err(ErrCursorValue)
          case Some(scope) =>
            if req.after == "" then Ok(Prepared(q.sql, orders, [], args, req.size, scope))
            else
              match DecodedCursor(codec, req.after, scope, |orders|)
              case Err(e) => Err(e)
              case Ok(values) =>
                Ok(Prepared(q.sql, orders, values, args, req.size, scope))
  }

  /** A request is accepted exactly if there is SQL, the size and the lookahead row fit a bigint, the
      sort resolves to 32 columns at most, the filter has a scope, and the cursor, if there is one,
      decodes under it. What fails first is the error. */
  lemma BuiltIsExact(codec: Codec, q: PageQuery, model: Option<Whitelist.Model>, req: CursorRequest, args: seq<GoValue>)
    ensures
      var orders := OrdersFor(q, model, req.sort);
      Built(codec, q, model, req, args).Ok? <==>
        && q.sql != ""
        && 0 < req.size && req.size + 1 <= 0x7FFF_FFFF_FFFF_FFFF
        && orders.Ok? && |orders.value| <= 32
        && codec.scopeHash(q.sql, orders.value, args).Some?
        && (req.after != "" ==>
              var scope := codec.scopeHash(q.sql, orders.value, args).value;
              DecodedCursor(codec, req.after, scope, |orders.value|).Ok?)
    ensures
      var orders := OrdersFor(q, model, req.sort);
      Built(codec, q, model, req, args).Err? ==>
        Built(codec, q, model, req, args).error ==
          if q.sql == "" then ErrNoSQL
          else if req.size == 0 || req.size + 1 > 0x7FFF_FFFF_FFFF_FFFF then ErrInvalidRequest
          else if orders.Err? then orders.error
          else if |orders.value| > 32 then ErrInvalidRequest
          else if codec.scopeHash(q.sql, orders.value, args).None? then ErrCursorValue
          else ErrInvalidCursor
  {
    var orders := OrdersFor(q, model, req.sort);
    if orders.Ok? && codec.scopeHash(q.sql, orders.value, args).Some? {
      DecodingIsBound(codec, req.after, codec.scopeHash(q.sql, orders.value, args).value, |orders.value|);
    }
  }

  /** BuildAfter, over the caller's arguments args[..argc]. */
  method BuildAfter(codec: Codec, q: PageQuery, model: Option<Whitelist.Model>, req: CursorRequest,
                    args: array<GoValue>, argc: nat, cache: Whitelist.SortableCache)
    returns (r: Result<CursorStatement>)
    requires argc <= args.Length && Whitelist.Faithful(cache.entries)
    modifies cache
    ensures Whitelist.Faithful(cache.entries)
    ensures r == Built(codec, q, model, req, args[..argc])
  {
    if q.sql == "" {
      return Err(ErrNoSQL);
    }
    if req.size == 0 || req.size >= MAX_INT64 {
      return Err(ErrInvalidRequest);
    }
    var resolved := Orders(q, model, req.sort, cache);
    if resolved.Err? {
      return Err(resolved.error);
    }
    var orders := resolved.value;
    if |orders| > MAX_CURSOR_KEYS {
      return Err(ErrInvalidRequest);
    }
    var scope := codec.scopeHash(q.sql, orders, args[..argc]);
    if scope.None? {
      return Err(ErrCursorValue);
    }
    var values: seq<GoValue> := [];
    if req.after != "" {
      var decoded := DecodeCursor(codec, req.after, scope.value, |orders|);
      if decoded.Err? {
        return Err(decoded.error);
      }
      values := decoded.value;
    }
    var st := Finish(q.sql, orders, values, args, argc, req.size, scope.value);
    r := Ok(st);
  }

  /** The keys, and the arguments with the limit after them. */
  method Bind(orders: seq<Order>, values: seq<GoValue>, args: array<GoValue>, argc: nat, size: Uint)
    returns (keys: seq<Seek.CursorKey>, bound: seq<GoValue>)
    requires |values| <= |orders| && argc <= args.Length
    ensures keys == KeysFor(orders, values, argc)
    ensures bound == ParamsFor(values, args[..argc], size)
  {
    var params, count;
    keys, params, count := PrepareCursorKeys(orders, values, args, argc);
    ghost var before := params[..count];
    params[count] := Bigint(Plus(size, 1));
    bound := params[..count + 1];
    assert bound == before + [Bigint(Plus(size, 1))];
  }

  method Finish(sql: string, orders: seq<Order>, values: seq<GoValue>, args: array<GoValue>, argc: nat, size: Uint,
                scope: string)
    returns (st: CursorStatement)
    requires |values| <= |orders| && argc <= args.Length
    ensures st == Prepared(sql, orders, values, args[..argc], size, scope)
  {
    var keys, bound := Bind(orders, values, args, argc, size);
    var rows := AfterSQL(sql, orders, keys, |bound|);
    st := CursorStatement(rows, bound, orders, scope);
  }

  // ---- What the statement asks for --------------------------------------------------------

  lemma {:induction false} RequestedNulls(cols: Cols, sort: seq<string>)
    requires Resolve.Requested(cols, sort).Ok?
    ensures forall o :: o in Resolve.Requested(cols, sort).value ==> o.nulls == NullsDefault
  {
    if sort == [] {
    } else {
      RequestedNulls(cols, sort[..|sort| - 1]);
    }
  }

  /** The resolved order of a query made by Make can be written out. */
  lemma ResolvedIsRenderable(q: PageQuery, model: Option<Whitelist.Model>, sort: seq<string>)
    requires WellMade(q) && OrdersFor(q, model, sort).Ok?
    ensures Renderable(OrdersFor(q, model, sort).value)
  {
    var cols := WhitelistFor(q, model, sort).value;
    var requested := Resolve.Requested(cols, sort).value;
    Resolve.ResolvedIsFirstMentions(q.head, q.tie, cols, sort, requested);
    RequestedNulls(cols, sort);
    var orders := OrdersFor(q, model, sort).value;
    var followed := Resolve.Follow(q.tie, Resolve.FirstMentions(q.head + requested));
    assert Resolve.Mentions(orders, q.tie[0].column);
    forall o | o in orders ensures OrderText.KnownNulls(o) {
      Resolve.FirstMentionsAreMembers(q.head + requested + followed, o);
      FollowKeepsNulls(q.tie, Resolve.FirstMentions(q.head + requested), o);
    }
  }

  lemma OrdersAreDistinct(q: PageQuery, model: Option<Whitelist.Model>, sort: seq<string>)
    requires OrdersFor(q, model, sort).Ok?
    ensures Resolve.DistinctColumns(OrdersFor(q, model, sort).value)
  {
    var cols := WhitelistFor(q, model, sort).value;
    Resolve.ResolvedIsFirstMentions(q.head, q.tie, cols, sort, Resolve.Requested(cols, sort).value);
  }

  /** The tie makes the order of a request tell the rows apart. */
  lemma OrdersDistinguish(q: PageQuery, model: Option<Whitelist.Model>, sort: seq<string>, base: seq<Row>)
    requires OrdersFor(q, model, sort).Ok? && Resolve.TieDistinguishes(q.tie, base)
    ensures Distinguished(OrdersFor(q, model, sort).value, multiset(base))
  {
    var cols := WhitelistFor(q, model, sort).value;
    Resolve.ResolvedIsFirstMentions(q.head, q.tie, cols, sort, Resolve.Requested(cols, sort).value);
    Resolve.TieMakesKeysDiffer(OrdersFor(q, model, sort).value, q.tie, base);
  }

  lemma BuiltHasItsOrders(codec: Codec, q: PageQuery, model: Option<Whitelist.Model>, req: CursorRequest,
                          args: seq<GoValue>)
    requires Built(codec, q, model, req, args).Ok?
    ensures OrdersFor(q, model, req.sort) == Ok(Built(codec, q, model, req, args).value.orders)
    ensures IsScope(codec, Built(codec, q, model, req, args).value.scope)
  {
  }

  lemma FollowKeepsNulls(tie: seq<Order>, parts: seq<Order>, o: Order)
    requires AllValid(tie)
    ensures o in Resolve.Follow(tie, parts) ==> OrderText.KnownNulls(o)
  {
  }

  lemma {:induction false} BranchesAreConjunctions(keys: seq<Seek.CursorKey>, tuple: bool, n: nat)
    requires n <= |keys|
    ensures forall i :: 0 <= i < |Seek.Branches(keys, tuple, n)| ==> Seek.Branches(keys, tuple, n)[i].Conjunction?
  {
    if n == 0 {
    } else {
      BranchesAreConjunctions(keys, tuple, n - 1);
    }
  }

  lemma AfterIsWritable(orders: seq<Order>, keys: seq<Seek.CursorKey>, limit: nat)
    requires Renderable(orders)
    ensures Writable(AfterStatement(orders, keys, limit))
  {
    if keys != [] {
      var ps := Seek.AfterPredicates(keys);
      BranchesAreConjunctions(keys, Seek.Uniform(keys), |keys|);
      assert forall i :: 0 <= i < |ps| ==> Complete(ps[i]);
    }
  }

  /** The limit placeholder resolves to the page size and the lookahead row. */
  lemma LimitIsWired(values: seq<GoValue>, args: seq<GoValue>, size: Uint)
    requires GoodSize(size)
    ensures LimitOf(ParamsFor(values, args, size), |ParamsFor(values, args, size)|) == size + 1
  {
    var params := ParamsFor(values, args, size);
    BigintIsWired(params, |params|, size + 1);
  }
}
