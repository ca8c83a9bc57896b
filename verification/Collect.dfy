/** Fetching keyset pages: one page (collectAfter, collect.go), and a client's walk over them. */
module Collect {
  import opened Wrappers
  import opened Keyset
  import opened Request
  import opened Statement
  import opened StatementReader
  import opened NextRows
  import opened Cursor
  import opened Query
  import opened Rows
  import Resolve
  import Whitelist

  datatype CursorResult = CursorResult(list: seq<Row>, nextCursor: string, hasMore: bool)

  // ---- One page ---------------------------------------------------------------------------

  /** The driver fails on a row that is read: one of the page's rows does not decode, or the keys
      of its last row do not scan. The lookahead row is neither decoded nor scanned. */
  predicate RowsFail(s: Stream, size: Uint) {
    || (exists i :: 0 <= i < |s.rows| && i < size && i in s.undecodable)
    || (0 < size <= |s.rows| && size - 1 in s.unscannable)
  }

  /** The page a stream makes. */
  function PageOf(codec: Codec, st: CursorStatement, s: Stream, size: Uint): Result<CursorResult>
    requires size > 0
  {
    if !Aligned(s.fields, st.orders) then Err(ErrInvalidColumn)
    else if RowsFail(s, size) then Err(ErrDriver)
    else if s.failure.Some? then Err(s.failure.value)
    else if |s.rows| <= size then Ok(CursorResult(s.rows, "", false))
    else
      match CursorText(codec, st.scope, st.orders, KeyCells(st.orders, s.rows[size - 1]))
      case Err(e) => Err(e)
      case Ok(token) => Ok(CursorResult(s.rows[..size], token, true))
  }

  /** What a page says of the stream it was read from. The stream ended well; every order column is
      one result column; nothing that was read was broken; the rows are the first of the stream, and
      the cursor is of the last of them. */
  ghost predicate ReadWell(codec: Codec, st: CursorStatement, s: Stream, size: Uint, page: CursorResult) {
    && s.failure == None
    && (forall o :: o in st.orders ==> multiset(s.fields)[o.column] == 1)
    && (forall i :: 0 <= i < |page.list| ==> i !in s.undecodable)
    && page.list == Take(s.rows, size)
    && (page.hasMore <==> |s.rows| > size)
    && (|page.list| == size > 0 ==> size - 1 !in s.unscannable)
    && if |s.rows| <= size then page.nextCursor == ""
       else
         && size > 0
         && CursorText(codec, st.scope, st.orders, KeyCells(st.orders, s.rows[size - 1])) == Ok(page.nextCursor)
  }

  /** What an error says of it. */
  ghost predicate ReadBadly(codec: Codec, st: CursorStatement, s: Stream, size: Uint, e: Error) {
    || (e == ErrInvalidColumn && exists o :: o in st.orders && multiset(s.fields)[o.column] != 1)
    || (e == ErrDriver && exists i :: 0 <= i < |s.rows| && i < size && i in s.undecodable)
    || (e == ErrDriver && 0 < size <= |s.rows| && size - 1 in s.unscannable)
    || s.failure == Some(e)
    || (|s.rows| > size > 0 && CursorText(codec, st.scope, st.orders, KeyCells(st.orders, s.rows[size - 1])) == Err(e))
  }

  /** A page has a cursor exactly if there is more after it. */
  lemma CursorIffMore(codec: Codec, st: CursorStatement, s: Stream, size: Uint)
    requires Lawful(codec) && IsScope(codec, st.scope)
    requires size > 0 && PageOf(codec, st, s, size).Ok?
    ensures PageOf(codec, st, s, size).value.nextCursor != "" <==> PageOf(codec, st, s, size).value.hasMore
    ensures PageOf(codec, st, s, size).value.hasMore <==> |s.rows| > size
  {
    if |s.rows| > size {
      CursorIsNotEmpty(codec, st.scope, st.orders, KeyCells(st.orders, s.rows[size - 1]));
    }
  }

  /** The rows have the columns the stream announces. */
  predicate Regular(s: Stream) {
    forall i :: 0 <= i < |s.rows| ==> s.rows[i].fields == s.fields && |s.rows[i].cells| == |s.fields|
  }

  lemma PageReadsWell(codec: Codec, st: CursorStatement, s: Stream, size: Uint)
    requires size > 0
    ensures
      var r := PageOf(codec, st, s, size);
      if r.Ok? then ReadWell(codec, st, s, size, r.value) else ReadBadly(codec, st, s, size, r.error)
  {
    AlignedByCount(s.fields, st.orders);
  }

  /** Reads a page off an open stream. */
  method ReadPage(codec: Codec, st: CursorStatement, rows: RowStream, size: Uint) returns (r: Result<CursorResult>)
    requires size > 0 && rows.Valid() && rows.index == 0 && !rows.closed
    requires Regular(rows.stream) && Resolve.DistinctColumns(st.orders)
    modifies rows
    ensures r == PageOf(codec, st, rows.stream, size)
    ensures r.Ok? ==> ReadWell(codec, st, rows.stream, size, r.value)
    ensures r.Err? ==> ReadBadly(codec, st, rows.stream, size, r.error)
  {
    r := ReadRows(codec, st, rows, size);
    PageReadsWell(codec, st, rows.stream, size);
  }

  /** The loop over the rows. */
  method ReadRows(codec: Codec, st: CursorStatement, rows: RowStream, size: Uint) returns (r: Result<CursorResult>)
    requires size > 0 && rows.Valid() && rows.index == 0 && !rows.closed
    requires Regular(rows.stream) && Resolve.DistinctColumns(st.orders)
    modifies rows
    ensures r == PageOf(codec, st, rows.stream, size)
  {
    var made := NewCursorKeyReader(rows.stream.fields, st.orders);
    if made.Err? {
      return Err(made.error);
    }
    var list, hasMore, keys := [], false, [];
    var more := rows.Next();
    while more
      invariant rows.Valid() && more == !rows.closed
      invariant |list| <= size && |list| == rows.index - (if more then 1 else 0)
      invariant more ==> rows.index > 0
      invariant list == rows.stream.rows[..|list|]
      invariant forall i :: 0 <= i < |list| ==> i !in rows.stream.undecodable
      invariant |list| == size ==>
                size - 1 !in rows.stream.unscannable && keys == KeyCells(st.orders, rows.stream.rows[size - 1])
      invariant !more ==> |list| == |rows.stream.rows|
      invariant !hasMore
      decreases |rows.stream.rows| - |list|, more
    {
      if |list| == size {
        hasMore := true;
        break;
      }
      var item := rows.Decode();
      if item.Err? {
        assert RowsFail(rows.stream, size);
        return Err(item.error);
      }
      list := list + [item.value];
      if |list| == size {
        var read := ReadKeys(made.value, rows, st.orders);
        if read.Err? {
          assert RowsFail(rows.stream, size);
          return Err(read.error);
        }
        keys := read.value;
      }
      more := rows.Next();
    }
    assert !RowsFail(rows.stream, size);
    assert list == if hasMore then rows.stream.rows[..size] else rows.stream.rows;
    rows.Close();
    var failure := rows.Failure();
    if failure.Some? {
      return Err(failure.value);
    }
    var next := "";
    if hasMore {
      var token := Cursor.Cursor(codec, st.scope, st.orders, keys);
      if token.Err? {
        return Err(token.error);
      }
      next := token.value;
    }
    r := Ok(CursorResult(list, next, hasMore));
  }

  // ---- The database -----------------------------------------------------------------------

  /** What the base SQL returns on one snapshot: its columns, the number of its arguments, and its
      rows under them; and how many rows any SELECT returns under such arguments. */
  datatype Snapshot = Snapshot(fields: seq<string>, argc: nat, rows: seq<GoValue> -> seq<Row>,
                               size: (string, seq<GoValue>) -> nat)

  /** The SELECT whose rows a count statement counts. */
  function ReadCount(text: string): Option<string> {
    var lead, end := "SELECT count(*) FROM (", ") AS pgfx_page";
    if |text| >= |lead| + |end| && text[..|lead|] == lead && text[|text| - |end|..] == end
    then Some(text[|lead|..|text| - |end|])
    else None
  }

  ghost predicate WellFormed(s: Snapshot) {
    forall args, r :: r in s.rows(args) ==> r.fields == s.fields && |r.cells| == |s.fields|
  }

  /** A stream ends with an error after some of its rows. */
  datatype Cut = Cut(after: nat, error: Error)

  /** What goes wrong with one query: it is refused, or its stream is broken somewhere. */
  datatype Fault = Refused | Broken(undecodable: set<nat>, unscannable: set<nat>, cut: Option<Cut>)

  /** The rows a stream delivers of those asked for. */
  function Delivered(out: seq<Row>, cut: Option<Cut>): seq<Row> {
    if cut.None? then out else Take(out, cut.value.after)
  }

  function CutError(cut: Option<Cut>): Option<Error> {
    if cut.None? then None else Some(cut.value.error)
  }

  const NO_FAULT := Broken({}, {}, None)

  predicate Unbroken(s: Stream) {
    s.undecodable == {} && s.unscannable == {} && s.failure == None
  }

  /** Answers queries over one snapshot. Its n-th query meets the n-th fault. */
  class Database {
    const snapshot: Snapshot
    const faults: nat -> Fault
    var queries: nat
    var last: RowStream?

    function FaultAt(n: nat): Fault { faults(n) }

    function LastStream(): Stream
      reads this
    {
      if last == null then Stream([], [], {}, {}, None) else last.stream
    }

    constructor (snapshot: Snapshot, faults: nat -> Fault)
      ensures this.snapshot == snapshot && this.faults == faults && queries == 0 && last == null
    {
      this.snapshot, this.faults := snapshot, faults;
      queries, last := 0, null;
    }

    /** The rows are those the text asks for, over the base rows under its own arguments, or the
        first of them if the stream breaks off. */
    method Query(sql: string, text: string, args: seq<GoValue>) returns (r: Result<RowStream>)
      requires |args| >= snapshot.argc && WellFormed(snapshot)
      modifies this
      ensures queries == old(queries) + 1
      ensures r.Err? <==> FaultAt(old(queries)).Refused? || ReadStatement(sql, text).None?
      ensures r.Err? ==> r.error == ErrDriver && last == old(last)
      ensures r.Ok? ==>
                && fresh(r.value) && last == r.value
                && r.value.Valid() && r.value.index == 0 && !r.value.closed
                && Answers(r.value.stream, snapshot, FaultAt(old(queries)), sql, text, args)
      ensures r.Ok? && FaultAt(old(queries)) == NO_FAULT ==> Unbroken(r.value.stream)
    {
      var fault := FaultAt(queries);
      queries := queries + 1;
      var read := ReadStatement(sql, text);
      if fault.Refused? || read.None? {
        return Err(ErrDriver);
      }
      var base := snapshot.rows(args[..snapshot.argc]);
      var out := Run(read.value, base, args);
      RunIsAnOutcome(read.value, base, args);
      var rows := new RowStream(Stream(snapshot.fields, Delivered(out, fault.cut),
                                       fault.undecodable, fault.unscannable, CutError(fault.cut)));
      last := rows;
      r := Ok(rows);
    }

    /** Counts the rows of the SELECT that the text wraps, under the base arguments. */
    method Count(text: string, args: seq<GoValue>) returns (r: Result<nat>)
      requires |args| == snapshot.argc
      modifies this
      ensures queries == old(queries) + 1 && last == old(last)
      ensures r == if FaultAt(old(queries)) == NO_FAULT && ReadCount(text).Some?
                   then Ok(snapshot.size(ReadCount(text).value, args))
                   else Err(ErrDriver)
    {
      var counted := ReadCount(text);
      r := if FaultAt(queries) == NO_FAULT && counted.Some?
      then Ok(snapshot.size(counted.value, args))
      else Err(ErrDriver);
      queries := queries + 1;
    }
  }

  ghost predicate Answers(s: Stream, snapshot: Snapshot, fault: Fault, sql: string, text: string, args: seq<GoValue>)
    requires |args| >= snapshot.argc
  {
    && s.fields == snapshot.fields
    && fault.Broken? && s.undecodable == fault.undecodable && s.unscannable == fault.unscannable
    && s.failure == CutError(fault.cut)
    && exists out :: TextOutcome(sql, text, snapshot.rows(args[..snapshot.argc]), args, out)
                     && s.rows == Delivered(out, fault.cut)
  }

  /** A stream that ended well holds all of what was asked for. */
  lemma WholeAnswer(s: Stream, snapshot: Snapshot, fault: Fault, sql: string, text: string, args: seq<GoValue>)
    requires |args| >= snapshot.argc
    requires Answers(s, snapshot, fault, sql, text, args) && s.failure == None
    ensures TextOutcome(sql, text, snapshot.rows(args[..snapshot.argc]), args, s.rows)
  {
  }

  lemma AnswersAreRegular(s: Stream, snapshot: Snapshot, fault: Fault, sql: string, text: string, args: seq<GoValue>)
    requires |args| >= snapshot.argc && WellFormed(snapshot)
    requires Answers(s, snapshot, fault, sql, text, args)
    ensures Regular(s)
  {
    var base := snapshot.rows(args[..snapshot.argc]);
    var out :| TextOutcome(sql, text, base, args, out) && s.rows == Delivered(out, fault.cut);
    forall i | 0 <= i < |s.rows| ensures s.rows[i].fields == s.fields && |s.rows[i].cells| == |s.fields| {
      assert s.rows <= out && s.rows[i] == out[i];
      ReturnedRowsAreBaseRows(ReadStatement(sql, text).value, base, args, out, out[i]);
    }
  }

  /** The database opens a stream: a statement was built, it can be read, and it is not refused. */
  predicate Answered(sql: string, built: Result<CursorStatement>, fault: Fault) {
    built.Ok? && !fault.Refused? && ReadStatement(sql, built.value.rows).Some?
  }

  /** What comes of a call: the builder's error, the database's refusal, or what PageOf makes of
      the stream. */
  ghost predicate CallOutcome(codec: Codec, sql: string, built: Result<CursorStatement>, size: Uint,
                              snapshot: Snapshot, fault: Fault, s: Stream, r: Result<CursorResult>)
  {
    if built.Err? then r == Err(built.error)
    else if !Answered(sql, built, fault) then r == Err(ErrDriver)
    else
      && |built.value.args| >= snapshot.argc && size > 0
      && Answers(s, snapshot, fault, sql, built.value.rows, built.value.args)
      && r == PageOf(codec, built.value, s, size)
  }

  /** Runs a built statement and reads its page. */
  method FetchBuilt(db: Database, codec: Codec, sql: string, st: CursorStatement, size: Uint)
    returns (r: Result<CursorResult>)
    requires |st.args| >= db.snapshot.argc && WellFormed(db.snapshot)
    requires size > 0 && Resolve.DistinctColumns(st.orders) && IsScope(codec, st.scope)
    modifies db
    ensures db.queries == old(db.queries) + 1
    ensures if Answered(sql, Ok(st), db.FaultAt(old(db.queries)))
            then db.last != null && fresh(db.last) && db.last.closed
            else db.last == old(db.last)
    ensures CallOutcome(codec, sql, Ok(st), size, db.snapshot, db.FaultAt(old(db.queries)), db.LastStream(), r)
    ensures Lawful(codec) && r.Ok? ==> (r.value.nextCursor != "" <==> r.value.hasMore)
  {
    ghost var fault := db.FaultAt(db.queries);
    var rows := db.Query(sql, st.rows, st.args);
    if rows.Err? {
      return Err(rows.error);
    }
    AnswersAreRegular(rows.value.stream, db.snapshot, fault, sql, st.rows, st.args);
    r := ReadPage(codec, st, rows.value, size);
    if Lawful(codec) && r.Ok? { CursorIffMore(codec, st, rows.value.stream, size); }
    rows.value.Close();
  }

  /** collectAfter. A page is what PageOf makes of the database's answer to the built statement;
      no query is made if the statement cannot be built, and a stream that was opened is closed
      however the call ends. */
  method CollectAfter(db: Database, codec: Codec, q: PageQuery, model: Option<Whitelist.Model>, req: CursorRequest,
                      args: array<GoValue>, argc: nat, cache: Whitelist.SortableCache)
    returns (r: Result<CursorResult>)
    requires argc <= args.Length && argc == db.snapshot.argc && WellFormed(db.snapshot)
    requires Whitelist.Faithful(cache.entries)
    modifies db, cache
    ensures Whitelist.Faithful(cache.entries)
    ensures
      var built := Built(codec, q, model, req, args[..argc]);
      && db.queries == old(db.queries) + (if built.Err? then 0 else 1)
      && if Answered(q.sql, built, db.FaultAt(old(db.queries)))
         then db.last != null && fresh(db.last) && db.last.closed
         else db.last == old(db.last)
    ensures CallOutcome(codec, q.sql, Built(codec, q, model, req, args[..argc]), req.size,
                        db.snapshot, db.FaultAt(old(db.queries)), db.LastStream(), r)
    ensures Lawful(codec) && r.Ok? ==> (r.value.nextCursor != "" <==> r.value.hasMore)
  {
    var st := BuildAfter(codec, q, model, req, args, argc, cache);
    if st.Err? {
      return Err(st.error);
    }
    BuiltHasItsOrders(codec, q, model, req, args[..argc]);
    OrdersAreDistinct(q, model, req.sort);
    r := FetchBuilt(db, codec, q.sql, st.value, req.size);
  }
}
