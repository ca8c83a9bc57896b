/** The ORDER BY list as text, and its reader (page/order.go). */
module OrderText {
  import opened Wrappers
  import opened Text
  import opened Keyset

  predicate KnownNulls(order: Order) { !order.nulls.NullsUnknown? }

  function DirectionText(desc: bool): string { if desc then " DESC" else " ASC" }

  function NullsText(nulls: Nulls): string {
    match nulls
    case NullsFirst => " NULLS FIRST"
    case NullsLast => " NULLS LAST"
    case _ => ""
  }

  function OrderSQL(order: Order): string {
    QuoteIdent(order.column) + DirectionText(order.desc) + NullsText(order.nulls)
  }

  function OrdersSQL(orders: seq<Order>): string {
    Join(Map(OrderSQL, orders), ", ")
  }

  method WriteSQL(order: Order, b: Builder)
    requires b.Valid()
    modifies b
    ensures b.Valid() && b.text == old(b.text) + OrderSQL(order)
  {
    b.WriteString(QuoteIdent(order.column));
    if order.desc {
      b.WriteString(" DESC");
    } else {
      b.WriteString(" ASC");
    }
    match order.nulls {
      case NullsFirst => b.WriteString(" NULLS FIRST");
      case NullsLast => b.WriteString(" NULLS LAST");
      case _ =>
    }
    Associate(old(b.text), QuoteIdent(order.column), DirectionText(order.desc), NullsText(order.nulls));
  }

  method RenderOrders(orders: seq<Order>) returns (sql: string)
    ensures sql == OrdersSQL(orders)
  {
    var b := new Builder();
    for i := 0 to |orders|
      invariant b.Valid() && b.text == OrdersSQL(orders[..i])
    {
      if i > 0 {
        b.WriteString(", ");
      }
      WriteSQL(orders[i], b);
      assert orders[..i + 1][..i] == orders[..i];
      MapOfTake(OrderSQL, orders[..i + 1], i);
    }
    assert orders[..|orders|] == orders;
    sql := b.text;
  }

  // ---- Reading it back --------------------------------------------------------------------

  function ReadDirection(s: string): Option<(bool, string)> {
    if " DESC" <= s then Some((true, s[5..]))
    else if " ASC" <= s then Some((false, s[4..]))
    else None
  }

  function ReadNulls(s: string): (Nulls, string) {
    if " NULLS FIRST" <= s then (NullsFirst, s[12..])
    else if " NULLS LAST" <= s then (NullsLast, s[11..])
    else (NullsDefault, s)
  }

  function ReadOrder(s: string): (r: Option<(Order, string)>)
    ensures r.Some? ==> |r.value.1| < |s|
  {
    match ReadIdent(s)
    case None => None
    case Some((column, s1)) =>
      match ReadDirection(s1)
      case None => None
      case Some((desc, s2)) =>
        var (nulls, s3) := ReadNulls(s2);
        Some((Order(column, desc, nulls), s3))
  }

  function ReadOrderBy(s: string): Option<seq<Order>> {
    if s == "" then Some([])
    else
      match ReadList(ReadOrder, ", ", s)
      case Some((orders, "")) => Some(orders)
      case _ => None
  }

  /** Text that cannot be taken for more of an order term. */
  predicate EndsTerm(rest: string) {
    rest == "" || (rest[0] != '"' && !(" NULLS" <= rest))
  }

  lemma DirectionReadsBack(desc: bool, rest: string)
    ensures ReadDirection(DirectionText(desc) + rest) == Some((desc, rest))
  {
    Dropped(DirectionText(desc), rest);
    var s := DirectionText(desc) + rest;
    assert s[1] == DirectionText(desc)[1];
    assert " DESC"[1] == 'D' && " ASC"[1] == 'A';
  }

  lemma OrderReadsBack(order: Order, rest: string)
    requires KnownNulls(order) && EndsTerm(rest)
    ensures ReadOrder(OrderSQL(order) + rest) == Some((order, rest))
  {
    var direction, nulls := DirectionText(order.desc), NullsText(order.nulls);
    var s1, s2 := direction + (nulls + rest), nulls + rest;
    assert OrderSQL(order) + rest == QuoteIdent(order.column) + s1;
    IdentReadsBack(order.column, s1);
    DirectionReadsBack(order.desc, s2);
    NullsReadBack(order.nulls, rest);
  }

  lemma NullsReadBack(nulls: Nulls, rest: string)
    requires !nulls.NullsUnknown? && EndsTerm(rest)
    ensures ReadNulls(NullsText(nulls) + rest) == (nulls, rest)
  {
    var s := NullsText(nulls) + rest;
    Dropped(NullsText(nulls), rest);
    match nulls
    case NullsFirst =>
    case NullsLast =>
      assert s[7] == 'L' && " NULLS FIRST"[7] == 'F';
    case NullsDefault =>
      assert s == rest;
      assert " NULLS FIRST"[..6] == " NULLS" && " NULLS LAST"[..6] == " NULLS";
  }

  lemma OrdersReadBack(orders: seq<Order>, rest: string)
    requires orders != [] && forall o :: o in orders ==> KnownNulls(o)
    requires EndsTerm(rest) && !(", " <= rest)
    ensures ReadList(ReadOrder, ", ", OrdersSQL(orders) + rest) == Some((orders, rest))
  {
    var texts := Map(OrderSQL, orders);
    forall i, t: string | 0 <= i < |texts| && (", " <= t || t == rest)
      ensures ReadOrder(texts[i] + t) == Some((orders[i], t))
    {
      assert " NULLS"[0] == ' ' && ", "[0] == ',';
      OrderReadsBack(orders[i], t);
    }
    ListReadsBack(ReadOrder, ", ", texts, orders, rest);
  }

  /** The reader recovers the list from the text, for names with any characters in them. */
  lemma OrderByReadsBack(orders: seq<Order>)
    requires forall o :: o in orders ==> KnownNulls(o)
    ensures ReadOrderBy(OrdersSQL(orders)) == Some(orders)
  {
    if orders != [] {
      OrdersReadBack(orders, "");
      assert OrdersSQL(orders) + "" == OrdersSQL(orders);
      assert OrdersSQL(orders) != "";
    }
  }

  /** So two lists render alike only if they are the same. */
  lemma OrdersSQLIsInjective(a: seq<Order>, b: seq<Order>)
    requires forall o :: o in a ==> KnownNulls(o)
    requires forall o :: o in b ==> KnownNulls(o)
    requires OrdersSQL(a) == OrdersSQL(b)
    ensures a == b
  {
    OrderByReadsBack(a);
    OrderByReadsBack(b);
  }
}
