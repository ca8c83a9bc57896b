/** The driver's row stream, and the reader that takes a cursor's keys from it (collect.go). */
module Rows {
  import opened Wrappers
  import opened Keyset
  import Resolve

  /** What a query streams: the rows, the rows that cannot be decoded or scanned, and the error the
      stream ends with, if it does. */
  datatype Stream = Stream(fields: seq<string>, rows: seq<Row>, undecodable: set<nat>, unscannable: set<nat>,
                           failure: Option<Error>)

  /** pgx.Rows: `index` rows have been delivered, the last of them current. */
  class RowStream {
    const stream: Stream
    var index: nat
    var closed: bool

    ghost predicate Valid()
      reads this
    {
      index <= |stream.rows|
    }

    constructor (stream: Stream)
      ensures this.stream == stream && index == 0 && !closed && Valid()
    {
      this.stream := stream;
      index, closed := 0, false;
    }

    /** Moves to the next row; closes at the end. */
    method Next() returns (more: bool)
      requires Valid()
      modifies this
      ensures Valid() && more == (!old(closed) && old(index) < |stream.rows|)
      ensures more ==> index == old(index) + 1 && !closed
      ensures !more ==> index == old(index) && closed
    {
      more := !closed && index < |stream.rows|;
      if more {
        index := index + 1;
      } else {
        closed := true;
      }
    }

    /** Decodes the current row into a struct, which is the row itself here. */
    method Decode() returns (r: Result<Row>)
      requires Valid() && index > 0
      ensures r == if index - 1 in stream.undecodable then Err(ErrDriver) else Ok(stream.rows[index - 1])
    {
      r := if index - 1 in stream.undecodable then Err(ErrDriver) else Ok(stream.rows[index - 1]);
    }

    /** Scans the current row: column j goes to keys[dest[j]], or nowhere. */
    method Scan(dest: array<Option<nat>>, keys: array<GoValue>) returns (ok: bool)
      requires Valid() && index > 0
      requires forall j :: 0 <= j < dest.Length && dest[j].Some? ==> dest[j].value < keys.Length
      requires forall j, k :: 0 <= j < k < dest.Length && dest[j].Some? && dest[k].Some? ==> dest[j] != dest[k]
      modifies keys
      ensures ok == (index - 1 !in stream.unscannable && dest.Length == |stream.rows[index - 1].cells|)
      ensures ok ==> forall j :: 0 <= j < dest.Length && dest[j].Some? ==>
              keys[dest[j].value] == stream.rows[index - 1].cells[j]
      ensures forall i :: 0 <= i < keys.Length && (forall j :: 0 <= j < dest.Length ==> dest[j] != Some(i)) ==>
              keys[i] == old(keys[i])
    {
      var cells := stream.rows[index - 1].cells;
      if index - 1 in stream.unscannable || dest.Length != |cells| {
        return false;
      }
      for j := 0 to dest.Length
        invariant forall k :: 0 <= k < j && dest[k].Some? ==> keys[dest[k].value] == cells[k]
        invariant forall i :: 0 <= i < keys.Length && (forall k :: 0 <= k < dest.Length ==> dest[k] != Some(i)) ==>
                  keys[i] == old(keys[i])
      {
        if dest[j].Some? {
          keys[dest[j].value] := cells[j];
        }
      }
      ok := true;
    }

    method Close()
      modifies this
      ensures closed && index == old(index)
    {
      closed := true;
    }

    /** The error of the stream, known once it is closed. */
    method Failure() returns (e: Option<Error>)
      ensures e == if closed then stream.failure else None
    {
      e := if closed then stream.failure else None;
    }
  }

  // ---- The key reader ---------------------------------------------------------------------

  datatype KeyReader = KeyReader(positions: seq<nat>, columnCount: nat)

  predicate OccursOnce(fields: seq<string>, column: string) {
    var p := Position(fields, column);
    p < |fields| && forall j :: p < j < |fields| ==> fields[j] != column
  }

  /** Every order column is one result column. */
  predicate Aligned(fields: seq<string>, orders: seq<Order>) {
    forall i :: 0 <= i < |orders| ==> OccursOnce(fields, orders[i].column)
  }

  /** The reader finds every key in its own column. */
  ghost predicate ReaderFor(reader: KeyReader, fields: seq<string>, orders: seq<Order>) {
    && reader.columnCount == |fields|
    && |reader.positions| == |orders|
    && forall i :: 0 <= i < |orders| ==> reader.positions[i] == Position(fields, orders[i].column) < |fields|
  }

  /** Said by counting. */
  lemma OccursOnceByCount(fields: seq<string>, column: string)
    ensures OccursOnce(fields, column) <==> multiset(fields)[column] == 1
  {
    var p := Position(fields, column);
    if p < |fields| {
      var rest := fields[p + 1..];
      assert fields == fields[..p] + ([column] + rest);
      assert column !in fields[..p];
      assert multiset(fields)[column] == 1 + multiset(rest)[column];
      LaterIsInTheRest(fields, column, p);
    } else {
      assert column !in fields;
    }
  }

  lemma LaterIsInTheRest(fields: seq<string>, column: string, p: nat)
    requires p < |fields|
    ensures column in fields[p + 1..] <==> exists j :: p < j < |fields| && fields[j] == column
  {
    if j :| p < j < |fields| && fields[j] == column {
      assert fields[p + 1..][j - p - 1] == column;
    }
  }

  lemma AlignedByCount(fields: seq<string>, orders: seq<Order>)
    ensures Aligned(fields, orders) <==> forall o :: o in orders ==> multiset(fields)[o.column] == 1
  {
    forall i | 0 <= i < |orders|
      ensures orders[i] in orders && (OccursOnce(fields, orders[i].column) <==> multiset(fields)[orders[i].column] == 1)
    {
      OccursOnceByCount(fields, orders[i].column);
    }
  }

  /** The one position of a column, or none if it is missing or repeated. */
  method FindColumn(fields: seq<string>, column: string) returns (position: Option<nat>)
    ensures position == if OccursOnce(fields, column) then Some(Position(fields, column)) else None
  {
    position := None;
    for j := 0 to |fields|
      invariant position.None? ==> forall k :: 0 <= k < j ==> fields[k] != column
      invariant position.Some? ==>
                  && position.value < j && position.value == Position(fields, column)
                  && forall k :: 0 <= k < j && k != position.value ==> fields[k] != column
    {
      if fields[j] != column {
        continue;
      }
      if position.Some? {
        assert !OccursOnce(fields, column);
        return None;
      }
      position := Some(j);
      assert Position(fields, column) == j;
    }
  }

  /** Succeeds exactly if every order column occurs once among the fields. */
  method NewCursorKeyReader(fields: seq<string>, orders: seq<Order>) returns (r: Result<KeyReader>)
    ensures r.Ok? <==> Aligned(fields, orders)
    ensures r.Ok? <==> forall o :: o in orders ==> multiset(fields)[o.column] == 1
    ensures r.Ok? ==> ReaderFor(r.value, fields, orders)
    ensures r.Err? ==> r.error == ErrInvalidColumn
  {
    AlignedByCount(fields, orders);
    var positions := new nat[|orders|](_ => 0);
    for i := 0 to |orders|
      invariant forall k :: 0 <= k < i ==>
                  OccursOnce(fields, orders[k].column) && positions[k] == Position(fields, orders[k].column)
    {
      var found := FindColumn(fields, orders[i].column);
      if found.None? {
        return Err(ErrInvalidColumn);
      }
      positions[i] := found.value;
    }
    r := Ok(KeyReader(positions[..], |fields|));
  }

  /** The key values of a row: of each order column, its cell. */
  function KeyCells(orders: seq<Order>, row: Row): (keys: seq<GoValue>)
    ensures |keys| == |orders|
  {
    seq(|orders|, i requires 0 <= i < |orders| => row.Get(orders[i].column))
  }

  lemma KeyCellsAreTheKeys(orders: seq<Order>, row: Row)
    ensures SqlAll(KeyCells(orders, row)) == KeysOf(orders, row)
  {
  }

  /** Distinct columns have distinct positions. */
  lemma PositionsDiffer(fields: seq<string>, orders: seq<Order>, positions: seq<nat>)
    requires Resolve.DistinctColumns(orders) && |positions| == |orders|
    requires forall i :: 0 <= i < |orders| ==> positions[i] == Position(fields, orders[i].column) < |fields|
    ensures forall i, j :: 0 <= i < j < |positions| ==> positions[i] != positions[j]
  {
    forall i, j | 0 <= i < j < |positions| ensures positions[i] != positions[j] {
      assert fields[positions[i]] == orders[i].column && fields[positions[j]] == orders[j].column;
    }
  }

  /** One destination a key, in the column it is read from. */
  method Destinations(reader: KeyReader) returns (dest: array<Option<nat>>)
    requires forall i :: 0 <= i < |reader.positions| ==> reader.positions[i] < reader.columnCount
    requires forall i, j :: 0 <= i < j < |reader.positions| ==> reader.positions[i] != reader.positions[j]
    ensures fresh(dest) && dest.Length == reader.columnCount
    ensures forall k :: 0 <= k < |reader.positions| ==> dest[reader.positions[k]] == Some(k)
    ensures forall j :: 0 <= j < dest.Length && dest[j].Some? ==>
              dest[j].value < |reader.positions| && reader.positions[dest[j].value] == j
  {
    dest := new Option<nat>[reader.columnCount](_ => None);
    for i := 0 to |reader.positions|
      invariant forall k :: 0 <= k < i ==> dest[reader.positions[k]] == Some(k)
      invariant forall j :: 0 <= j < dest.Length && dest[j].Some? ==>
                  dest[j].value < i && reader.positions[dest[j].value] == j
    {
      assert dest[reader.positions[i]] == None;
      dest[reader.positions[i]] := Some(i);
    }
  }

  /** Reads the keys of the current row. With no column ordered by twice, no destination is set
      twice, and every key comes from its own column. */
  method ReadKeys(reader: KeyReader, rows: RowStream, ghost orders: seq<Order>) returns (r: Result<seq<GoValue>>)
    requires rows.Valid() && rows.index > 0
    requires ReaderFor(reader, rows.stream.fields, orders) && Resolve.DistinctColumns(orders)
    requires rows.stream.rows[rows.index - 1].fields == rows.stream.fields
    requires |rows.stream.rows[rows.index - 1].cells| == |rows.stream.fields|
    ensures r == if rows.index - 1 in rows.stream.unscannable then Err(ErrDriver)
                 else Ok(KeyCells(orders, rows.stream.rows[rows.index - 1]))
  {
    PositionsDiffer(rows.stream.fields, orders, reader.positions);
    var keys := new GoValue[|reader.positions|](_ => Nil);
    var dest := Destinations(reader);
    var ok := rows.Scan(dest, keys);
    if !ok {
      return Err(ErrDriver);
    }
    ghost var row := rows.stream.rows[rows.index - 1];
    forall k | 0 <= k < keys.Length ensures keys[k] == row.cells[reader.positions[k]] {
      assert dest[reader.positions[k]] == Some(k);
    }
    assert keys[..] == KeyCells(orders, row);
    r := Ok(keys[..]);
  }
}
