# Pagination of pgfx: a Dafny model

This project models the pagination of pgfx (`page/` and `collect.go`), with its sort whitelist and
its batch metrics, and proves what its documentation promises of them.

A page query is a SELECT with an order: a pinned head, what the client asked for, and a tie that
tells rows apart. A keyset page is fetched with a cursor, which holds the sort keys of the last row
shown. The library writes SQL text that must return exactly the next rows, in one of several forms:
a single SELECT with a row comparison, a UNION ALL of branches with a limit each, or `WHERE FALSE`.
The model follows that text to the end:

* `Keyset` - values, rows, and the strict order an ORDER BY list puts on sort keys, NULL placement
  included. `Predicate` - WHERE predicates under three-valued logic, with row comparison as in
  section 8.2 (`<comparison predicate>`) of ISO/IEC 9075-2.
* `Seek` - the predicates built for a cursor, and the proof that exactly one is TRUE of each row
  after the cursor and none of any other. `Statement`, `NextRows` - what a database may return for
  a statement (any sorting that respects the order; rows with equal keys in any order) and the proof
  that whatever it returns is the next rows.
* `Text`, `OrderText`, `PredicateText`, `StatementText` - the loops that write the SQL, down to the
  string builder's one allocation. `PredicateReader`, `StatementReader` - a reader of that SQL that
  recovers the statement from the text, so that the meaning of a page is the meaning of its text.
* `SortText` - a client's sort value, and what it spells. `Resolve` - how the order is put together.
  `Whitelist` - the fields a client may sort by.
* `Cursor` - tokens; `CodecExample` - a codec that keeps the laws asked of it, and the token it
  makes of a nil byte slice. `Query`, `Paging` - Make, BuildAfter, and what its text and arguments ask for.
* `Rows`, `Collect`, `Traverse` - the row stream, one fetched page, and a whole walk: the pages put
  together are the sorted result, each row once.
* `Request`, `Windows`, `Offset`, `OffsetWalk` - numbered pages, their inferred total, and a walk
  over them.
* `Metrics` - batch metrics under any interleaving of the driver's callbacks.

## What stands for the outside

* A value is known by its Go type and by its place (a real number) in the order of its column. A
  database works on one snapshot and one total order per column.
* JSON, base64url (section 5 of RFC 4648, unpadded) and SHA-256 are functions of which only the
  laws in `Cursor.Lawful` are used: values JSON carries without loss (`Codec.exact`) and tokens the
  library makes are read back, neither such a token nor a scope is written as nothing, only NULL and
  a nil byte slice are written `null`, and a key as it stands in a token that was read is read as
  a nil slice only if it is `null`. `CodecExample.QuotingIsLawful` shows that these laws can be kept.
* The driver and the database are the classes `Rows.RowStream` and `Collect.Database`, which can
  refuse a query, fail to decode or scan a row, and break off a stream with an error after any of its
  rows. It counts the rows of the SELECT it finds wrapped in a count statement.
* `uint` has 64 bits.

A property that does not hold of every input: a cursor key that is a nil `[]byte` inside a non-nil
`any` encodes, and the token is then refused (`Cursor.NilSliceIsRefused`;
`CodecExample.NilSliceTokenIsMadeAndRefused` exhibits one). The round trip is proved
to hold exactly for tokens without such a key (`Cursor.TokenRoundTrip`,
`Paging.TokenThroughTheBuilder`).

## Model

| member | source | states |
|---|---|---|
| Keyset.BeforeIsTransitive | page/order.go:28-38 | Coming before is transitive, with any mix of directions and NULL placements. |
| Keyset.BeforeIsTotal | page/order.go:9-26 | Two tuples are equal, NULL counting as equal to NULL, or one comes before the other. |
| Keyset.SortedIsUnique | page/query.go:48-62 | Rows with pairwise different sort keys have exactly one sorted sequence; this is why a page needs a tie. |
| Predicate.CountOfOneIsUnique | page/query.go:257-260 | A count of one TRUE predicate means one holds and no other does, and a count of none that none holds. |
| Seek.AgreementMeansEqual | page/query.go:399-418 | `c = $i`, or `c IS NULL` for a NULL key, is TRUE of exactly the rows whose cell equals the key. |
| Seek.PrefixMeansEqual | page/query.go:397-419 | The accumulated prefix is TRUE of exactly the rows that agree with the cursor on the keys before. |
| Seek.DecidersAreExact | page/query.go:400-416 | The conditions added for one key hold once in all if the row is after the cursor by that key, else never; next to a row comparison only for NULLs placed last. |
| Seek.BranchesAtAreExact | page/query.go:399-419 | The branches of key i count one on a row that first differs from the cursor there and is after it, else none. |
| Seek.BranchesAreExact | page/query.go:397-419 | After n rounds of the loop the branches count one on the rows decided within the first n keys, else none. |
| Seek.TupleIsExact | page/query.go:432-463 | The row comparison is TRUE of exactly the rows after the cursor whose first differing cell is not NULL. |
| Seek.NullsGoFirstAsSorted | page/order.go:9-26 | The code takes NULLs to come first exactly where the database puts them there: as the term says, and by default first descending and last ascending. |
| Seek.SeekIsExact | page/query.go:378-422 | For any directions, NULL placements and keys, NULL keys included, the number of TRUE predicates on a row is one if the row is strictly after the cursor in the database's order, its own NULL placement included, and zero if not. |
| Seek.SeekHitsOnce | page/query.go:257-260 | The same predicate by predicate: one and no other holds of a row after the cursor; none of any other row. |
| Seek.RowComparisonRefinesExpansion | page/query.go:391-395 | For one direction and no NULL key, the row comparison with its IS NULL branches selects the rows that the per-key expansion selects, rows with NULLs included. |
| Seek.NoPredicatesIffCursorIsLast | page/query.go:338-340 | No predicate is left, and WHERE FALSE is written, exactly if every key is NULL and placed last. |
| Seek.SinglePredicateIffNullsFirst | page/query.go:341-343 | The row comparison is the only predicate exactly if no column places NULLs last. |
| Statement.SortOfKeep | page/query.go:328-343 | Any sorting of the rows a filter keeps is what the filter keeps of the sorted rows. |
| Statement.FirstKSurvive | page/query.go:355-366 | A row among the first k after the cursor survives the limit of its own branch. |
| Statement.SortOfConcat | page/query.go:345-371 | Any sorting of the concatenated branches is the sorted base cut down to the rows they hold, all of which are after the cursor. |
| Statement.LimitPushdown | page/query.go:345-371 | Branches filtered, sorted and limited to k each, put together, sorted and limited to k again, give the first k rows after the cursor, whatever order the database picks for equal keys. |
| Statement.FormFollowsTheCursor | page/query.go:328-345 | A union is written for two predicates or more; WHERE FALSE exactly if every key is NULL and sorts last; of a one-direction cursor without NULLs, a row comparison alone exactly if every column sorts NULLs first. |
| Statement.ReturnedRowsAreBaseRows | page/query.go:328-372 | Every row returned is a row of the base result. |
| NextRows.PageIsNextRows | page/query.go:328-372 | In each form (WHERE FALSE, one predicate, UNION ALL) every result the database may return is the first `limit` rows strictly after the cursor, in order. |
| NextRows.FirstPageStartsAtTheTop | page/query.go:332-334 | Without keys every result is the first `limit` rows of the sorted result. |
| NextRows.RowsAfterAreTheRest | page/request.go:43-44 | With the keys of row c of the sorted result, the rows after the cursor are those after c. |
| NextRows.RunIsAnOutcome | page/query.go:328-372 | Every statement has a result, so the theorems on all results are not empty. |
| Text.IdentReadsBack | page/order.go:80-84 | A quoted name reads back as the name, whatever characters it holds, if no quote follows it. |
| Text.PlaceholderReadsBack | page/query.go:319-322 | `$n` reads back as n if no digit follows. |
| Text.ListReadsBack | page/query.go:440-446 | A separated list reads back item by item if each item does wherever the list can go on or end. |
| Text.Builder.Grow | page/query.go:352 | Makes room for n more characters, in a new buffer of twice the room and n more if they do not fit, and else in the one there is; the text stays. |
| Text.Builder.WriteString | page/query.go:353-369 | Appends; allocates anew exactly if the text outgrows the buffer. |
| OrderText.WriteSQL | page/order.go:63-78 | Appends the term of the order: quoted name, direction, NULL placement. |
| OrderText.RenderOrders | page/order.go:121-133 | The text is the comma-separated list of the terms. |
| OrderText.OrderReadsBack | page/order.go:63-78 | A written term reads back as the order, before any text that cannot continue a term. |
| OrderText.OrderByReadsBack | page/order.go:121-133 | The reader recovers the whole list from its text, for names with quotes, commas, spaces or keywords in them. |
| OrderText.OrdersSQLIsInjective | page/order.go:121-133 | Two lists with the same text are the same list. |
| PredicateText.TuplePredicate | page/query.go:432-463 | The text written is that of the row comparison of all keys. |
| PredicateText.AfterPredicates | page/query.go:378-422 | The loop with its accumulating prefix writes the texts of the predicates proved exact above, in their order. |
| PredicateReader.PredicateReadsBack | page/query.go:389-421 | A predicate's text reads back as the predicate, a row comparison of one column as a plain comparison. |
| PredicateReader.TextMeansThePredicate | page/query.go:389-421 | Read back, the text has the truth value of the predicate on every row. |
| StatementText.UnionSize | page/query.go:345-350 | The size asked of the builder is the length of the whole union text. |
| StatementText.WriteUnion | page/query.go:345-371 | The union is written in one allocation, which it fills exactly. |
| StatementText.AfterSQL | page/query.go:328-372 | The text is that of the statement chosen by the number of predicates, which a reader with its own spelling of the wrapped base SQL reads back. |
| StatementReader.SelectIsNoUnion | page/query.go:330-353 | Whatever the base SQL is, the text of a plain SELECT cannot be taken for that of a union. |
| StatementReader.StatementReadsBack | page/query.go:328-372 | The text of every statement the library writes reads back as that statement. |
| StatementReader.TextMeansTheStatement | page/query.go:328-372 | The results a database may return for the text are exactly those of the statement. |
| SortText.SortReadsBack | page/order.go:86-103 | A field name parses as itself, ascending alone and in the direction written after it. |
| SortText.ParseIsExact | page/order.go:86-103 | A value parses as a field and a direction exactly if it is blanks, the field and blanks, or that with a colon, blanks, nothing or `asc` or `desc` in any case, and blanks; anything else is malformed. |
| SortText.FoldsAlike | page/order.go:161 | Names fold alike exactly if they differ in nothing but the case of letters. |
| SortText.FoldedIs | page/order.go:161 | The folded name is the one of those without upper case. |
| Resolve.FieldAndDirection | page/order.go:155-167 | A field of the whitelist, in any case, asks for its column: ascending alone or with `asc`, descending with `desc`, NULLs by default. |
| Resolve.RequestedIsAsked | page/order.go:155-167 | Each sort value asks for its own order, in turn, by what it spells; the first that spells nothing, or no field of the whitelist, is refused with the error for that. |
| Resolve.Parts.Append | page/order.go:142-149 | A column already ordered by is not repeated; `seen` stays the set of columns ordered by. |
| Resolve.AddSort | page/order.go:155-167 | Adds the orders the sort values ask for, in turn, or reports the first value that is malformed or unknown. |
| Resolve.ResolveOrders | page/order.go:138-186 | The result is the first mentions of the head, of the orders asked for and of the tie, where after other orders every tie term has the direction of the last of those and alone keeps its own; or the error of the first bad sort value. |
| Resolve.AsAskedIsUnique | page/order.go:138-186 | That leaves one list, so it is all there is to say of the result. |
| Resolve.ResolvedIsFirstMentions | page/order.go:135-186 | The order is the first mention of each column in head, sort and following tie: no column twice, the head's first mentions in front, every tie column present. |
| Resolve.TieFollowsDirection | page/order.go:169-183 | If all that comes before the tie has one direction, the whole order has it. |
| Resolve.TieMakesKeysDiffer | page/query.go:48-62 | Rows the tie tells apart have different sort keys under the resolved order, whatever stands before the tie. |
| Resolve.ResolvedOrderIsStrictAndTotal | page/query.go:48-62 | On such rows the resolved order is irreflexive, transitive and total. |
| Whitelist.FoldIsExact | page/sortable.go:97-102 | Folding accepts exactly if no two names equal under folding have different columns; the result maps every folded name to its column and nothing else. |
| Whitelist.FoldIgnoresOrder | page/sortable.go:55-106 | The same entries met in any order are accepted alike and give the same whitelist. |
| Whitelist.FoldSortable | page/query.go:122-143 | In whatever order the keys come: accepts exactly if no name is empty, every column has a name without NUL in it, and folded names are unambiguous; the result is the folded map; each error names a defect the map has. |
| Whitelist.FoldedIsUnique | page/query.go:122-143 | There is one folded map of a given map, so the order in which its keys were visited does not show. |
| Whitelist.CollectSortable | page/sortable.go:55-106 | The recursive walk leaves in the map the fold of what was there and the fields' entries, embedded structs flattened in place, or reports their conflict. |
| Whitelist.EntriesAreNamed | page/sortable.go:55-106 | The entries of a struct are exactly the names and columns its visible fields stand for, through pointers and embedded structs: the column of the db tag or the field name in lower case, under the name the other tag gives, fields tagged `-` hidden. |
| Whitelist.DerivedIsNamed | page/sortable.go:24-106 | A derived whitelist maps every such name, folded, to its column and has nothing else; there is none for what is no struct, or if two names that fold alike have different columns. |
| Whitelist.SortableCache.SortableOf | page/sortable.go:24-53 | Cached or not, the whitelist is the one a fresh derivation gives, or its error; the cache stays faithful and only grows. |
| Whitelist.EveryInterleavingIsFaithful | page/sortable.go:40-52 | However the load, derive and store steps of any callers interleave, each that is done has what a fresh derivation gives, and a stored entry is never replaced. |
| Cursor.ValueRoundTrip | page/cursor.go:59-109 | An encoded key decodes to itself, except a nil byte slice, which is refused. |
| Cursor.ValueIsDecoded | page/cursor.go:126-189 | A key decodes exactly if it is `null` under the kind of that name, or other data that can be read as the kind it names. |
| Cursor.Cursor | page/cursor.go:30-57 | The loop builds the token of the keys: refused without a scope, with the wrong number of keys, for an unsupported key, or over the size limit. |
| Cursor.CursorIsMade | page/cursor.go:30-109 | A cursor is made exactly if there is a scope, a key for every column, each of a supported type with a JSON form, and the text is no longer than 65536; it is the text of a version 1 token that carries the keys. |
| Cursor.DecodeCursor | page/cursor.go:111-148 | The checks and the loop compute the specified decoding, NULL keys left nil. |
| Cursor.DecodingIsBound | page/cursor.go:111-148 | A token is accepted exactly if it is within the limit, decodes, has version 1, this scope and this key count, and every key decodes. |
| Cursor.DecodedAreDecodable | page/cursor.go:126-145 | No decoded key is a nil byte slice. |
| Cursor.TokenRoundTrip | page/cursor.go:25-57 | An emitted token is non-empty, within the decoder's limit, and decodes under its scope and count to its keys, unless one is a nil byte slice; under another scope or count it is refused. |
| Cursor.NilSliceIsRefused | page/cursor.go:137-139 | A token made of a nil byte slice is refused by the decoder. |
| CodecExample.NilSliceTokenIsMadeAndRefused | page/cursor.go:95-108 | The case arises: under a lawful codec a nil byte slice is encoded, its token is emitted, and the decoder refuses it. |
| Query.OptionsSet | page/query.go:41-93 | The options come to the orders of all Head options, of all Tie options, and the last of each other kind. |
| Query.ValidateIsExact | page/order.go:50-61 | A term is refused exactly for an unknown NULL placement, or else for a column without a name or with NUL in it. |
| Query.Make | page/query.go:95-146 | With what the options come to: in this order, no SQL, no tie, the first invalid head or tie column, or a defect of the whitelist is the error (of several defects, any), and else the query is as set, with its whitelist folded. |
| Query.Orders | page/order.go:105-119 | The order of a request, with the whitelist derived from the model only if a sort needs it, through the cache. |
| Query.SortNeedsAWhitelist | page/query.go:64-83 | Without a whitelist or a tag to derive one by, a client cannot sort. |
| Query.ModelMattersOnlyToSort | page/order.go:105-119 | The model is read only if a sort asks for it, a tag is set and no whitelist is given. |
| Query.SortByTheWhitelist | page/query.go:64-72 | A name of the given whitelist sorts by its column, between head and tie. |
| Query.SortByTheModel | page/query.go:74-83 | A name the model's fields stand for sorts by their column, between head and tie. |
| Query.OrdersDistinguish | page/query.go:48-62 | The order of any request tells apart the rows that the tie does. |
| Query.KeysAreWired | page/query.go:311-326 | The arguments are the caller's, then the non-NULL keys in order, then what is added; each key's placeholder resolves to its own value, and NULL keys have none. |
| Query.PrepareCursorKeys | page/query.go:311-326 | Fills a new array with the arguments and the bound keys and numbers the keys accordingly; the caller's array is not written. |
| Query.LimitIsWired | page/query.go:292-297 | The limit placeholder resolves to Size + 1. |
| Query.BuildAfter | page/query.go:257-301 | The calls and checks compute the specified statement or error, in the source's order of checks. |
| Query.BuiltIsExact | page/query.go:261-293 | A request is accepted exactly if there is SQL, 0 < Size < 2^63 - 1, the sort resolves to 32 columns at most, the filter has a scope, and the cursor, if any, decodes; what fails first is the error. |
| Query.ResolvedIsRenderable | page/order.go:50-61 | The order of a query made by Make is not empty and every term can be written. |
| Paging.PreparedAsksForNextRows | page/query.go:284-300 | Whatever the database returns for the prepared text and arguments is the first Size + 1 rows from the cursor on, in order. |
| Paging.BuiltAsksForNextRows | page/query.go:257-301 | Whatever cursor a request brings, if the builder accepts it, every result the database may return is the first Size + 1 rows strictly after the keys the cursor holds. |
| Paging.PreparedHasAnOutcome | page/query.go:295-300 | The prepared text has a result. |
| Paging.TokenThroughTheBuilder | page/query.go:279-300 | Given back with the same SQL, order and arguments, at any valid size, a token prepares the statement for the very keys it was made of; it is refused exactly if one is a nil byte slice. |
| Paging.TokenIsBound | page/cursor.go:200-214 | If the builder accepts a token, its scope is the one the token was made under and the number of order columns is the same. |
| Paging.OneDirectionSeeksByRow | page/query.go:378-395 | If head and sort go one way, a cursor without NULLs is sought by a row comparison, alone if every column places NULLs first. |
| Rows.RowStream.Next | collect.go:172 | Delivers the next row, or closes at the end. |
| Rows.RowStream.Scan | collect.go:249-251 | Column j goes to the destination set for it, and the others nowhere. |
| Rows.NewCursorKeyReader | collect.go:215-239 | Succeeds exactly if every order column is counted once among the result columns, with its position; else reports an invalid column. |
| Rows.PositionsDiffer | collect.go:241-247 | Distinct order columns have distinct positions. |
| Rows.Destinations | collect.go:241-247 | Key k is read from its position, and no other column has a destination. |
| Rows.ReadKeys | collect.go:241-261 | Every key is the cell of its own column; no destination is set twice. |
| Collect.ReadPage | collect.go:164-205 | A page is read only if the stream ended well, every order column is there once, and no row of the page was broken: it is the first min(n, Size) rows, with HasMore exactly if n > Size and a cursor only then, of the last row returned. An error is that of one of these. The lookahead row is neither decoded nor scanned. |
| Collect.CursorIffMore | page/request.go:53-60 | A page has a non-empty cursor exactly if HasMore, which is exactly if there were more rows than Size. |
| Collect.CollectAfter | collect.go:152-206 | The page is what ReadPage makes of the answer to the built statement, with a cursor exactly if HasMore; no query is made if it cannot be built; an opened stream is closed on every exit. |
| Collect.Database.Query | collect.go:158-162 | The stand-in for the database: the rows are some result the text asks for, or the first of them if the stream breaks off. |
| Collect.AnswersAreRegular | collect.go:164-167 | Every answer has the columns the stream announces. |
| Traverse.BuiltAt | page/query.go:279-300 | The cursor held after c rows builds the statement for the keys of row c. |
| Traverse.AnswerAt | page/query.go:284-300 | After c rows the answer is the next Size + 1 rows of the sorted result. |
| Traverse.PageAt | collect.go:169-203 | A page read off those rows is the next page, and its cursor goes on from the last row it holds. |
| Traverse.FetchNext | collect.go:152-206 | A call that succeeds brings the next page of the sorted result; on a walk without faults every call succeeds. |
| Traverse.FetchAll | page/request.go:43-60 | Starting without a cursor and going on while HasMore, with any positive sizes, the pages put together are the sorted result from its first row on, and the whole of it, each row once, if no call fails; without faults none does, and the walk ends. |
| Request.BoundsAreExact | page/request.go:26-41 | Accepts exactly if number and size are positive and Size + 1 and (Number - 1) * Size fit a bigint; then neither wraps. |
| Windows.SplitWindow | collect.go:127-131 | Whichever sorting a window was cut from, it and the lookahead row tell whether more follow, and a non-empty one with none after it tells the size of the whole. |
| Windows.PagesTile | page/query.go:193-215 | The first n pages put together are the first n * size rows. |
| Windows.EnoughPagesAreAll | page/query.go:193-215 | Enough pages put together are the whole result. |
| Offset.BuildRows | page/query.go:193-215 | The text and the paging arguments of a numbered page, or the error, in the source's order of checks. |
| Offset.RowsBuiltIsExact | page/query.go:193-205 | A request is built exactly if there is SQL, the number and size are positive, Size + 1 and (Number - 1) * Size are at most 2^63 - 1, and the sort resolves; what fails first is the error. |
| Offset.RowsAskForTheWindow | page/query.go:209-214 | Whatever the database returns for the text is limit + 1 rows after the offset, of some sorting of the base. |
| Offset.AppendRows | collect.go:122-125 | All rows, if every one decodes and the stream ends well; closed either way. |
| Offset.CollectPageRows | collect.go:114-132 | The rows are all the text asks for, without the lookahead row, and whether there was one; a stream that broke off is an error. |
| Offset.FetchPageRows | collect.go:134-141 | A page fetched alone is a window of some sorting of the base, and `more` holds exactly if rows follow it; else the error is the builder's, with no query made, or the database's. |
| Offset.CountReadsBack | page/query.go:217-231 | The count statement counts CountSQL if there is one, and else the base SQL. |
| Offset.Total | collect.go:87-99 | The total is the number of base rows, counted only if the page leaves it open, with the SELECT that CountSQL or the base SQL is. |
| Offset.CollectPage | collect.go:68-100 | On every path (short page, full last page, more rows, page past the end) the total is the number of base rows; the count is skipped exactly if the page is non-empty with no row after it. |
| Offset.NumberedPageIsItsWindow | collect.go:127-131 | With a tie that tells rows apart a numbered page is its window of the one sorted result, and another follows exactly if the next window is not empty. |
| OffsetWalk.FetchWindow | collect.go:134-141 | A call that succeeds brings the rows that go on after the pages before it, and says whether it is the last; none fails without a fault of the database, if the offsets fit a bigint. |
| OffsetWalk.FetchAllPages | page/request.go:5-25 | Fetching pages 1, 2, ... of one size while more rows follow, what n fetched pages hold together is the first n windows, and the whole sorted result, each row once, if no call fails; without faults none does, if the offsets fit a bigint, and the walk ends. |
| Metrics.Tracer.TraceBatchQuery | metrics.go:179-194 | Adds the rows and keeps the first error, unless there is no batch or it has ended. |
| Metrics.Tracer.TraceBatchEnd | metrics.go:196-224 | Reports once, the end error or else the first statement error, and marks the batch ended. |
| Metrics.EachBatchReportsItsOwn | metrics.go:162-224 | Over any interleaving of any number of batches each reports at most once, what its own events before its first end say. |
| Metrics.ReportCountsItsRows | metrics.go:189 | The rows reported are the sum of the batch's own results before its first end if that fits an int64, and else what int64 addition leaves of it. |
| Metrics.ReportsAreFinal | metrics.go:201-208 | Nothing that comes after a report changes or repeats it. |
| Metrics.Drive | metrics.go:162-224 | Calling the callbacks on their batches, event by event, in any order, the metrics given out are those of the events: each batch's own, once. |

## Left out

- Connections, transactions, configuration, Fx wiring and tracing options: plumbing over other libraries.
- The plain fetch helpers (rows, values, one row): they only call the driver.
- Execution by PostgreSQL: plans, index use, collations, and writes between two pages. A column that is missing or ambiguous reads as NULL in a statement here; fetching a keyset page rejects it through the key reader.
- The insides of JSON, base64url and SHA-256, and whether two different filters can share a scope: binding is up to equality of the scope.
- Values as Go holds them: a key is its type and its place in the column's order, so two values of one type that sort alike are one value here.
- Reflection and struct tags as text: the model of a struct is a finite tree of fields with their tags as a map.
- SortText.ParseIsExact: trims and folds in ASCII only, because the tables of Unicode are not part of this model.
- Whitelist.FoldIsExact: folds names in ASCII only, as above; its proof uses nothing about which characters fold.
- Rows.ReadKeys: does not model the copying of byte keys out of the row buffer, because a value here is not a buffer that a later row could overwrite.
- Text.Builder.Grow: does not model that the allocator may round a new buffer up.
- Trimming of the SQL text (`trimSQL`) and nil options: Make gets its texts trimmed.
- `Build`, which only combines the modelled calls, and the empty-query error of BuildCount, which cannot arise after BuildRows has succeeded.
- Decoding a row into a struct: the item is the row itself.
- Whitelist.EveryInterleavingIsFaithful: does not model the memory order of `sync.Map`; each of its operations is one atomic step.
- Metrics.Tracer.TraceBatchEnd: does not carry the name, SQL text and duration of a metric, because they are copied through.
- Offset.CollectPage: does not model the `.count` suffix put on the query name, which only labels metrics.
- Query.BuildAfter: does not bound the memory a page reserves, because the source leaves that to the application.
