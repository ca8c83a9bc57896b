/** Values, rows, and the order an ORDER BY list puts on them. */
module Keyset {

  /** The Go types a cursor key may have (page/cursor.go); KOther is any other type. */
  datatype Kind =
    | KInt | KInt8 | KInt16 | KInt32 | KInt64
    | KUint | KUint8 | KUint16 | KUint32 | KUint64
    | KFloat32 | KFloat64 | KBool | KString | KTime | KBytes | KUuid
    | KOther

  /** A value of Go's `any` as the driver passes it. A non-nil value is known by its type and
      by its place in the order of its column. NilBytes is a nil slice inside a non-nil `any`:
      Go tells it from nil, SQL does not. */
  datatype GoValue = Nil | NilBytes | Scalar(kind: Kind, rank: real)

  /** What SQL sees of a value. */
  datatype Datum = Null | Value(rank: real)

  function Sql(v: GoValue): Datum {
    if v.Scalar? then Value(v.rank) else Null
  }

  function SqlAll(vs: seq<GoValue>): (ds: seq<Datum>)
    ensures |ds| == |vs|
  {
    seq(|vs|, i requires 0 <= i < |vs| => Sql(vs[i]))
  }

  /** The position of the first field with this name, or |fields|. */
  function Position(fields: seq<string>, column: string): (p: nat)
    ensures p <= |fields|
    ensures p < |fields| ==> fields[p] == column
    ensures forall j :: 0 <= j < p ==> fields[j] != column
  {
    if fields == [] then 0
    else if fields[0] == column then 0
    else 1 + Position(fields[1..], column)
  }

  datatype Row = Row(fields: seq<string>, cells: seq<GoValue>) {
    function Get(column: string): GoValue {
      var p := Position(fields, column);
      if p < |cells| then cells[p] else Nil
    }

    function Cell(column: string): Datum { Sql(Get(column)) }
  }

  datatype Nulls = NullsDefault | NullsFirst | NullsLast | NullsUnknown(code: nat)

  datatype Order = Order(column: string, desc: bool, nulls: Nulls)

  // ---- The order of one term -------------------------------------------------------------

  /** The side of the values a database puts NULLs on: -1 before them, 1 after. Without a NULLS
      clause PostgreSQL takes NULL as larger than any value. A term of unknown placement is refused
      when the query is made, and never reaches a database. */
  function NullSide(order: Order): int {
    match order.nulls
    case NullsFirst => -1
    case NullsLast => 1
    case NullsDefault => if order.desc then -1 else 1
    case NullsUnknown(_) => 1
  }

  function Side(order: Order, d: Datum): int {
    if d.Value? then 0 else NullSide(order)
  }

  predicate TermBefore(order: Order, x: Datum, y: Datum) {
    || Side(order, x) < Side(order, y)
    || (x.Value? && y.Value? && if order.desc then x.rank > y.rank else x.rank < y.rank)
  }

  // ---- The lexicographic order of key tuples ---------------------------------------------

  /** The first place two tuples differ, or their length. NULL equals NULL here, as in ORDER BY. */
  function FirstDifference(xs: seq<Datum>, ys: seq<Datum>): (d: nat)
    requires |xs| == |ys|
    ensures d <= |xs|
    ensures forall j :: 0 <= j < d ==> xs[j] == ys[j]
    ensures d < |xs| ==> xs[d] != ys[d]
    ensures d == |xs| <==> xs == ys
  {
    if xs == [] then 0
    else if xs[0] != ys[0] then 0
    else
      assert xs == [xs[0]] + xs[1..] && ys == [ys[0]] + ys[1..];
      1 + FirstDifference(xs[1..], ys[1..])
  }

  predicate Before(orders: seq<Order>, xs: seq<Datum>, ys: seq<Datum>)
    requires |orders| == |xs| == |ys|
  {
    var d := FirstDifference(xs, ys);
    d < |orders| && TermBefore(orders[d], xs[d], ys[d])
  }

  lemma BeforeIsIrreflexive(orders: seq<Order>, xs: seq<Datum>)
    requires |orders| == |xs|
    ensures !Before(orders, xs, xs)
  {
  }

  lemma BeforeIsAsymmetric(orders: seq<Order>, xs: seq<Datum>, ys: seq<Datum>)
    requires |orders| == |xs| == |ys|
    requires Before(orders, xs, ys)
    ensures !Before(orders, ys, xs)
  {
    assert FirstDifference(xs, ys) == FirstDifference(ys, xs);
  }

  lemma BeforeIsTransitive(orders: seq<Order>, xs: seq<Datum>, ys: seq<Datum>, zs: seq<Datum>)
    requires |orders| == |xs| == |ys| == |zs|
    requires Before(orders, xs, ys) && Before(orders, ys, zs)
    ensures Before(orders, xs, zs)
  {
    var d, e := FirstDifference(xs, ys), FirstDifference(ys, zs);
    var m := if d < e then d else e;
    assert FirstDifference(xs, zs) == m by {
      assert forall j :: 0 <= j < m ==> xs[j] == ys[j] == zs[j];
      assert xs[m] != zs[m];
    }
  }

  lemma BeforeIsTotal(orders: seq<Order>, xs: seq<Datum>, ys: seq<Datum>)
    requires |orders| == |xs| == |ys|
    ensures Before(orders, xs, ys) || xs == ys || Before(orders, ys, xs)
  {
    assert FirstDifference(xs, ys) == FirstDifference(ys, xs);
  }

  // ---- Rows ------------------------------------------------------------------------------

  /** The sort keys of a row. */
  function KeysOf(orders: seq<Order>, row: Row): (keys: seq<Datum>)
    ensures |keys| == |orders|
  {
    seq(|orders|, i requires 0 <= i < |orders| => row.Cell(orders[i].column))
  }

  predicate RowBefore(orders: seq<Order>, a: Row, b: Row) {
    Before(orders, KeysOf(orders, a), KeysOf(orders, b))
  }

  /** ORDER BY accepts a sequence: no row comes before an earlier one. */
  ghost predicate Sorted(orders: seq<Order>, rows: seq<Row>) {
    forall i, j :: 0 <= i < j < |rows| ==> !RowBefore(orders, rows[j], rows[i])
  }

  /** No two rows of the bag have the same sort keys. */
  ghost predicate Distinguished(orders: seq<Order>, rows: multiset<Row>) {
    && (forall r :: r in rows ==> rows[r] == 1)
    && (forall r, s :: r in rows && s in rows && KeysOf(orders, r) == KeysOf(orders, s) ==> r == s)
  }

  lemma TwiceInTheBag(rows: seq<Row>, i: nat, j: nat)
    requires i < j < |rows| && rows[i] == rows[j]
    ensures multiset(rows)[rows[i]] >= 2
  {
    assert rows == rows[..j] + rows[j..];
    assert rows[i] in rows[..j] && rows[i] in rows[j..];
  }

  lemma SortedIsStrict(orders: seq<Order>, rows: seq<Row>, i: nat, j: nat)
    requires Sorted(orders, rows) && Distinguished(orders, multiset(rows))
    requires i < j < |rows|
    ensures RowBefore(orders, rows[i], rows[j])
  {
    assert rows[i] in multiset(rows) && rows[j] in multiset(rows);
    assert rows[i] != rows[j] by {
      if rows[i] == rows[j] { TwiceInTheBag(rows, i, j); }
    }
    BeforeIsTotal(orders, KeysOf(orders, rows[i]), KeysOf(orders, rows[j]));
  }

  lemma SameFirst(orders: seq<Order>, a: seq<Row>, b: seq<Row>)
    requires multiset(a) == multiset(b) && a != []
    requires Sorted(orders, a) && Sorted(orders, b)
    requires Distinguished(orders, multiset(a))
    ensures b != [] && a[0] == b[0]
  {
    assert a[0] in multiset(b);
    assert b[0] in multiset(a);
    var i :| 0 <= i < |a| && a[i] == b[0];
    var j :| 0 <= j < |b| && b[j] == a[0];
    BeforeIsTotal(orders, KeysOf(orders, a[0]), KeysOf(orders, b[0]));
    BeforeIsIrreflexive(orders, KeysOf(orders, a[0]));
  }

  lemma RestKeeps(orders: seq<Order>, rows: seq<Row>)
    requires rows != [] && Sorted(orders, rows) && Distinguished(orders, multiset(rows))
    ensures multiset(rows[1..]) == multiset(rows) - multiset{rows[0]}
    ensures Sorted(orders, rows[1..]) && Distinguished(orders, multiset(rows[1..]))
  {
    assert rows == [rows[0]] + rows[1..];
    var rest := multiset(rows[1..]);
    assert multiset(rows) == rest + multiset{rows[0]};
    SubBagKeeps(orders, multiset(rows), rest);
  }

  lemma SubBagKeeps(orders: seq<Order>, all: multiset<Row>, some: multiset<Row>)
    requires Distinguished(orders, all) && some <= all
    ensures Distinguished(orders, some)
  {
    forall r | r in some ensures some[r] == 1 {
      assert some[r] <= all[r];
    }
  }

  lemma SameRest(orders: seq<Order>, a: seq<Row>, b: seq<Row>)
    requires multiset(a) == multiset(b) && a != [] && b != [] && a[0] == b[0]
    requires Sorted(orders, a) && Sorted(orders, b) && Distinguished(orders, multiset(a))
    ensures multiset(a[1..]) == multiset(b[1..])
    ensures Sorted(orders, a[1..]) && Sorted(orders, b[1..]) && Distinguished(orders, multiset(a[1..]))
  {
    RestKeeps(orders, a);
    RestKeeps(orders, b);
  }

  lemma SameWhole(a: seq<Row>, b: seq<Row>)
    requires a != [] && b != [] && a[0] == b[0] && a[1..] == b[1..]
    ensures a == b
  {
    assert a == [a[0]] + a[1..];
    assert b == [b[0]] + b[1..];
  }

  /** A bag of distinguished rows has one sorted sequence. */
  lemma {:induction false} SortedIsUnique(orders: seq<Order>, a: seq<Row>, b: seq<Row>)
    requires multiset(a) == multiset(b)
    requires Sorted(orders, a) && Sorted(orders, b)
    requires Distinguished(orders, multiset(a))
    ensures a == b
  {
    if a == [] {
      assert |multiset(b)| == 0;
    } else {
      SameFirst(orders, a, b);
      SameRest(orders, a, b);
      SortedIsUnique(orders, a[1..], b[1..]);
      SameWhole(a, b);
    }
  }
}
