/** How the ORDER BY of a request is put together: the head, the client's sort, then the tie
    (resolveOrders, page/order.go). */
module Resolve {
  import opened Wrappers
  import opened Keyset
  import opened SortText

  type Cols = map<string, string>

  // ---- The specification ------------------------------------------------------------------

  function RequestedOne(sortable: Cols, value: string): Result<Order> {
    match ParseSort(value)
    case Err(e) => Err(e)
    case Ok((field, desc)) =>
      if ToLower(field) in sortable then Ok(Order(sortable[ToLower(field)], desc, NullsDefault))
      else Err(ErrUnknownSortField)
  }

  /** What the client asked for; the first bad value decides the error. */
  function Requested(sortable: Cols, sort: seq<string>): Result<seq<Order>> {
    if sort == [] then Ok([])
    else
      match Requested(sortable, sort[..|sort| - 1])
      case Err(e) => Err(e)
      case Ok(orders) =>
        match RequestedOne(sortable, sort[|sort| - 1])
        case Err(e) => Err(e)
        case Ok(order) => Ok(orders + [order])
  }

  // ---- What the client's sort asks for ----------------------------------------------------

  /** The field, in whatever case it is sent, is this name of the whitelist. */
  predicate NamedBy(sortable: Cols, field: string, name: string) {
    name in sortable && NoUpper(name) && SameButCase(field, name)
  }

  /** The sort value spells a field of the whitelist and a direction: its column is ordered by in
      that direction, NULLs placed by default. */
  ghost predicate Asks(sortable: Cols, value: string, order: Order) {
    && order.nulls == NullsDefault
    && exists field, name ::
         Spells(value, field, order.desc) && NamedBy(sortable, field, name) && sortable[name] == order.column
  }

  /** It spells nothing, or a field that no name of the whitelist is. */
  ghost predicate Refuses(sortable: Cols, value: string, e: Error) {
    match e
    case ErrInvalidSort => forall field, desc :: !Spells(value, field, desc)
    case ErrUnknownSortField =>
      exists field, desc :: Spells(value, field, desc) && forall name :: !NamedBy(sortable, field, name)
    case _ => false
  }

  lemma NameIsFolded(sortable: Cols, field: string, name: string)
    ensures NamedBy(sortable, field, name) <==> name in sortable && name == ToLower(field)
  {
    FoldedIs(field, name);
  }

  lemma AskedIsRequested(sortable: Cols, value: string, order: Order)
    ensures RequestedOne(sortable, value) == Ok(order) <==> Asks(sortable, value, order)
  {
    if RequestedOne(sortable, value) == Ok(order) {
      var (field, desc) := ParseSort(value).value;
      ParseIsExact(value, field, desc);
      NameIsFolded(sortable, field, ToLower(field));
      assert Spells(value, field, order.desc) && NamedBy(sortable, field, ToLower(field));
    }
    if Asks(sortable, value, order) {
      var field, name :|
        Spells(value, field, order.desc) && NamedBy(sortable, field, name) && sortable[name] == order.column;
      ParseIsExact(value, field, order.desc);
      NameIsFolded(sortable, field, name);
    }
  }

  lemma RefusedIsNotRequested(sortable: Cols, value: string)
    requires RequestedOne(sortable, value).Err?
    ensures Refuses(sortable, value, RequestedOne(sortable, value).error)
  {
    match ParseSort(value)
    case Err(_) =>
      forall field, desc ensures !Spells(value, field, desc) {
        ParseIsExact(value, field, desc);
      }
      ParseIsExact(value, "", false);
    case Ok((field, desc)) =>
      ParseIsExact(value, field, desc);
      forall name ensures !NamedBy(sortable, field, name) {
        NameIsFolded(sortable, field, name);
      }
  }

  /** A plain field of the whitelist asks for its column: ascending alone, and in the direction
      written after it. */
  lemma FieldAndDirection(sortable: Cols, field: string, name: string, desc: bool)
    requires Plainly(field) && NamedBy(sortable, field, name)
    ensures RequestedOne(sortable, field) == Ok(Order(sortable[name], false, NullsDefault))
    ensures RequestedOne(sortable, field + ":" + (if desc then "desc" else "asc"))
            == Ok(Order(sortable[name], desc, NullsDefault))
  {
    NameIsFolded(sortable, field, name);
    SortReadsBack(field, desc);
  }

  /** Each sort value asks for its own order, in turn. */
  ghost predicate AskedInTurn(sortable: Cols, sort: seq<string>, requested: seq<Order>) {
    && |requested| == |sort|
    && forall i :: 0 <= i < |sort| ==> Asks(sortable, sort[i], requested[i])
  }

  /** Sort value i is refused, and those before it ask for something. */
  ghost predicate RefusedAt(sortable: Cols, sort: seq<string>, i: nat, e: Error) {
    i < |sort| && Refuses(sortable, sort[i], e) && exists requested :: AskedInTurn(sortable, sort[..i], requested)
  }

  /** The first sort value that asks for nothing is refused. */
  ghost predicate RefusedAtFirst(sortable: Cols, sort: seq<string>, e: Error) {
    exists i :: 0 <= i < |sort| && RefusedAt(sortable, sort, i, e)
  }

  lemma RefusedInFront(sortable: Cols, sort: seq<string>, n: nat, i: nat, e: Error)
    requires n <= |sort| && RefusedAt(sortable, sort[..n], i, e)
    ensures RefusedAt(sortable, sort, i, e)
  {
    assert sort[..n][i] == sort[i] && sort[..n][..i] == sort[..i];
  }

  lemma RefusedEarlier(sortable: Cols, sort: seq<string>, n: nat, e: Error)
    requires n <= |sort| && RefusedAtFirst(sortable, sort[..n], e)
    ensures RefusedAtFirst(sortable, sort, e)
  {
    var i :| 0 <= i < n && RefusedAt(sortable, sort[..n], i, e);
    RefusedInFront(sortable, sort, n, i, e);
  }

  lemma AskedOneMore(sortable: Cols, sort: seq<string>, front: seq<Order>, order: Order)
    requires sort != [] && AskedInTurn(sortable, sort[..|sort| - 1], front)
    requires Asks(sortable, sort[|sort| - 1], order)
    ensures AskedInTurn(sortable, sort, front + [order])
  {
    forall i | 0 <= i < |sort| - 1 ensures Asks(sortable, sort[i], front[i]) {
      assert sort[..|sort| - 1][i] == sort[i];
    }
  }

  /** What is requested is what the sort values ask for, in turn, and nothing if one is refused. */
  lemma {:induction false} RequestedIsAsked(sortable: Cols, sort: seq<string>)
    ensures match Requested(sortable, sort)
            case Ok(requested) => AskedInTurn(sortable, sort, requested)
            case Err(e) => RefusedAtFirst(sortable, sort, e)
  {
    if sort == [] {
    } else {
      var n := |sort| - 1;
      RequestedIsAsked(sortable, sort[..n]);
      match Requested(sortable, sort[..n])
      case Err(e) =>
        RefusedEarlier(sortable, sort, n, e);
      case Ok(front) =>
        match RequestedOne(sortable, sort[n])
        case Err(e) =>
          RefusedIsNotRequested(sortable, sort[n]);
          assert RefusedAt(sortable, sort, n, e);
        case Ok(order) =>
          AskedIsRequested(sortable, sort[n], order);
          AskedOneMore(sortable, sort, front, order);
    }
  }

  lemma {:induction false} OneByOneRequested(sortable: Cols, sort: seq<string>, requested: seq<Order>)
    requires |requested| == |sort|
    requires forall i :: 0 <= i < |sort| ==> RequestedOne(sortable, sort[i]) == Ok(requested[i])
    ensures Requested(sortable, sort) == Ok(requested)
  {
    if sort == [] {
    } else {
      var n := |sort| - 1;
      OneByOneRequested(sortable, sort[..n], requested[..n]);
      assert requested == requested[..n] + [requested[n]];
    }
  }

  lemma AskedAreRequested(sortable: Cols, sort: seq<string>, requested: seq<Order>)
    requires AskedInTurn(sortable, sort, requested)
    ensures Requested(sortable, sort) == Ok(requested)
  {
    forall i | 0 <= i < |sort| ensures RequestedOne(sortable, sort[i]) == Ok(requested[i]) {
      AskedIsRequested(sortable, sort[i], requested[i]);
    }
    OneByOneRequested(sortable, sort, requested);
  }

  predicate Mentions(orders: seq<Order>, column: string) {
    exists i :: 0 <= i < |orders| && orders[i].column == column
  }

  function Add(parts: seq<Order>, order: Order): seq<Order> {
    if Mentions(parts, order.column) then parts else parts + [order]
  }

  function AddAll(parts: seq<Order>, orders: seq<Order>): seq<Order> {
    if orders == [] then parts else Add(AddAll(parts, orders[..|orders| - 1]), orders[|orders| - 1])
  }

  /** The tie takes the direction of the order it comes after; alone, it keeps its own. */
  function Follow(tie: seq<Order>, parts: seq<Order>): (followed: seq<Order>)
    ensures |followed| == |tie|
    ensures forall i :: 0 <= i < |tie| ==> followed[i].column == tie[i].column
  {
    if parts == [] then tie
    else seq(|tie|, i requires 0 <= i < |tie| => tie[i].(desc := parts[|parts| - 1].desc))
  }

  function Resolved(head: seq<Order>, tie: seq<Order>, sortable: Cols, sort: seq<string>): Result<seq<Order>> {
    match Requested(sortable, sort)
    case Err(e) => Err(e)
    case Ok(requested) =>
      var parts := AddAll([], head + requested);
      Ok(AddAll(parts, Follow(tie, parts)))
  }

  // ---- The loops --------------------------------------------------------------------------

  /** The loop state: the orders so far, and their columns. */
  class Parts {
    var parts: seq<Order>
    var seen: set<string>

    ghost predicate Valid()
      reads this
    {
      forall column :: column in seen <==> Mentions(parts, column)
    }

    constructor ()
      ensures Valid() && parts == []
    {
      parts, seen := [], {};
    }

    method Append(order: Order)
      requires Valid()
      modifies this
      ensures Valid() && parts == Add(old(parts), order)
    {
      if order.column in seen {
        return;
      }
      seen := seen + {order.column};
      parts := parts + [order];
      assert parts[|parts| - 1].column == order.column;
      forall column ensures column in seen <==> Mentions(parts, column) {
        if Mentions(old(parts), column) {
          var i :| 0 <= i < |old(parts)| && old(parts)[i].column == column;
          assert parts[i].column == column;
        }
      }
    }
  }

  lemma AddAllNext(parts: seq<Order>, orders: seq<Order>, i: nat)
    requires i < |orders|
    ensures AddAll(parts, orders[..i + 1]) == Add(AddAll(parts, orders[..i]), orders[i])
  {
    assert orders[..i + 1][..i] == orders[..i];
  }

  method AddHead(p: Parts, head: seq<Order>)
    requires p.Valid() && p.parts == []
    modifies p
    ensures p.Valid() && p.parts == AddAll([], head)
  {
    for i := 0 to |head|
      invariant p.Valid() && p.parts == AddAll([], head[..i])
    {
      AddAllNext([], head, i);
      p.Append(head[i]);
    }
    assert head[..|head|] == head;
  }

  /** An error in a prefix of the sort values is the error of all of them. */
  lemma {:induction false} RequestedStops(sortable: Cols, sort: seq<string>, n: nat)
    requires n <= |sort| && Requested(sortable, sort[..n]).Err?
    ensures Requested(sortable, sort) == Requested(sortable, sort[..n])
  {
    if n == |sort| {
      assert sort[..n] == sort;
    } else {
      assert sort[..|sort| - 1][..n] == sort[..n];
      RequestedStops(sortable, sort[..|sort| - 1], n);
    }
  }

  lemma NextRequested(head: seq<Order>, sortable: Cols, sort: seq<string>, i: nat, requested: seq<Order>)
    requires i < |sort| && Requested(sortable, sort[..i]) == Ok(requested)
    ensures RequestedOne(sortable, sort[i]).Err? ==>
            Requested(sortable, sort) == Err(RequestedOne(sortable, sort[i]).error)
    ensures RequestedOne(sortable, sort[i]).Ok? ==>
              var order := RequestedOne(sortable, sort[i]).value;
              && Requested(sortable, sort[..i + 1]) == Ok(requested + [order])
              && AddAll([], head + (requested + [order])) == Add(AddAll([], head + requested), order)
  {
    assert sort[..i + 1][..i] == sort[..i];
    match RequestedOne(sortable, sort[i])
    case Err(e) => RequestedStops(sortable, sort, i + 1);
    case Ok(order) => assert head + (requested + [order]) == (head + requested) + [order];
  }

  /** Adds what the client asked for; stops at the first value that cannot be sorted by. */
  method AddSort(p: Parts, ghost head: seq<Order>, sortable: Cols, sort: seq<string>) returns (failure: Option<Error>)
    requires p.Valid() && p.parts == AddAll([], head)
    modifies p
    ensures match Requested(sortable, sort)
            case Err(e) => failure == Some(e)
            case Ok(requested) => failure == None && p.Valid() && p.parts == AddAll([], head + requested)
    ensures match failure
            case Some(e) => RefusedAtFirst(sortable, sort, e)
            case None => exists requested :: AskedInTurn(sortable, sort, requested)
                                             && p.parts == AddAll([], head + requested)
  {
    RequestedIsAsked(sortable, sort);
    ghost var requested: seq<Order> := [];
    assert head + requested == head;
    for i := 0 to |sort|
      invariant Requested(sortable, sort[..i]) == Ok(requested)
      invariant p.Valid() && p.parts == AddAll([], head + requested)
    {
      NextRequested(head, sortable, sort, i, requested);
      var one := RequestedOne(sortable, sort[i]);
      if one.Err? {
        return Some(one.error);
      }
      p.Append(one.value);
      requested := requested + [one.value];
    }
    assert sort[..|sort|] == sort;
    failure := None;
  }

  method AddTie(p: Parts, tie: seq<Order>)
    requires p.Valid()
    modifies p
    ensures p.Valid() && p.parts == AddAll(old(p.parts), Follow(tie, old(p.parts)))
  {
    ghost var before := p.parts;
    var follow := p.parts != [];
    var desc := if follow then p.parts[|p.parts| - 1].desc else false;
    for i := 0 to |tie|
      invariant p.Valid() && p.parts == AddAll(before, Follow(tie, before)[..i])
    {
      AddAllNext(before, Follow(tie, before), i);
      var order := tie[i];
      if follow {
        order := order.(desc := desc);
      }
      p.Append(order);
    }
    assert Follow(tie, before)[..|tie|] == Follow(tie, before);
  }

  method ResolveOrders(head: seq<Order>, tie: seq<Order>, sortable: Cols, sort: seq<string>)
    returns (r: Result<seq<Order>>)
    ensures r == Resolved(head, tie, sortable, sort)
    ensures r.Ok? ==> ResolvedAsAsked(head, tie, sortable, sort, r.value)
    ensures r.Err? ==> RefusedAtFirst(sortable, sort, r.error)
  {
    ResolvedIsAsAsked(head, tie, sortable, sort);
    var p := new Parts();
    AddHead(p, head);
    var failure := AddSort(p, head, sortable, sort);
    if failure.Some? {
      return Err(failure.value);
    }
    AddTie(p, tie);
    r := Ok(p.parts);
  }

  // ---- What the result is -----------------------------------------------------------------

  /** The reference: of each column, the first mention, in the order of mention. */
  function FirstMentions(orders: seq<Order>): seq<Order> {
    if orders == [] then []
    else
      var front, last := orders[..|orders| - 1], orders[|orders| - 1];
      FirstMentions(front) + (if Mentions(front, last.column) then [] else [last])
  }

  predicate DistinctColumns(orders: seq<Order>) {
    forall i, j :: 0 <= i < j < |orders| ==> orders[i].column != orders[j].column
  }

  lemma {:induction false} FirstMentionsMention(orders: seq<Order>, column: string)
    ensures Mentions(FirstMentions(orders), column) <==> Mentions(orders, column)
  {
    if orders == [] {
    } else {
      var n := |orders| - 1;
      var front, kept := orders[..n], FirstMentions(orders[..n]);
      FirstMentionsMention(front, column);
      assert Mentions(orders, column) <==> Mentions(front, column) || orders[n].column == column by {
        if Mentions(front, column) {
          var i :| 0 <= i < n && front[i].column == column;
          assert orders[i].column == column;
        }
      }
      assert forall more :: Mentions(kept + [more], column) <==> Mentions(kept, column) || more.column == column by {
        forall more ensures Mentions(kept + [more], column) <==> Mentions(kept, column) || more.column == column {
          assert (kept + [more])[|kept|] == more;
          if Mentions(kept, column) {
            var i :| 0 <= i < |kept| && kept[i].column == column;
            assert (kept + [more])[i].column == column;
          }
        }
      }
      assert kept + [] == kept;
    }
  }

  lemma {:induction false} FirstMentionsAreDistinct(orders: seq<Order>)
    ensures DistinctColumns(FirstMentions(orders))
  {
    if orders == [] {
    } else {
      var n := |orders| - 1;
      FirstMentionsAreDistinct(orders[..n]);
      FirstMentionsMention(orders[..n], orders[n].column);
    }
  }

  lemma {:induction false} AddAllIsFirstMentions(first: seq<Order>, more: seq<Order>)
    ensures AddAll(FirstMentions(first), more) == FirstMentions(first + more)
  {
    if more == [] {
      assert first + more == first;
    } else {
      var n := |more| - 1;
      AddAllIsFirstMentions(first, more[..n]);
      assert (first + more)[..|first + more| - 1] == first + more[..n];
      FirstMentionsMention(first + more[..n], more[n].column);
    }
  }

  lemma {:induction false} FirstMentionsGrow(orders: seq<Order>, more: seq<Order>)
    ensures FirstMentions(orders) <= FirstMentions(orders + more)
  {
    if more == [] {
      assert orders + more == orders;
    } else {
      FirstMentionsGrow(orders, more[..|more| - 1]);
      assert (orders + more)[..|orders + more| - 1] == orders + more[..|more| - 1];
    }
  }

  /** The resolved list is the first mention of every column of head, sort and tie, in that order:
      no column twice, the head's first mentions in front, every tie column present. */
  lemma ResolvedIsFirstMentions(head: seq<Order>, tie: seq<Order>, sortable: Cols, sort: seq<string>,
                                requested: seq<Order>)
    requires Requested(sortable, sort) == Ok(requested)
    ensures
      var followed := Follow(tie, FirstMentions(head + requested));
      var orders := Resolved(head, tie, sortable, sort).value;
      && orders == FirstMentions(head + requested + followed)
      && DistinctColumns(orders)
      && FirstMentions(head) <= orders
      && forall t :: t in tie ==> Mentions(orders, t.column)
  {
    var before := head + requested;
    var followed := Follow(tie, FirstMentions(before));
    assert FirstMentions([]) == [] && [] + before == before;
    AddAllIsFirstMentions([], before);
    AddAllIsFirstMentions(before, followed);
    FirstMentionsAreDistinct(before + followed);
    HeadStaysInFront(head, requested, followed);
    TieIsMentioned(before, tie, followed);
  }

  lemma HeadStaysInFront(head: seq<Order>, requested: seq<Order>, followed: seq<Order>)
    ensures FirstMentions(head) <= FirstMentions(head + requested + followed)
  {
    assert head + requested + followed == head + (requested + followed);
    FirstMentionsGrow(head, requested + followed);
  }

  lemma TieIsMentioned(before: seq<Order>, tie: seq<Order>, followed: seq<Order>)
    requires |followed| == |tie| && forall i :: 0 <= i < |tie| ==> followed[i].column == tie[i].column
    ensures forall t :: t in tie ==> Mentions(FirstMentions(before + followed), t.column)
  {
    forall t | t in tie ensures Mentions(FirstMentions(before + followed), t.column) {
      LaterIsMentioned(before, tie, followed, t);
    }
  }

  /** The reference for the tie: the first mentions of head, sort and tie as they stand; after other
      orders, the tie's terms take the direction of the last of those. */
  predicate TieInPlace(before: seq<Order>, plain: seq<Order>, orders: seq<Order>) {
    && |before| <= |orders| == |plain|
    && (forall j :: 0 <= j < |before| ==> orders[j] == plain[j] == before[j])
    && forall j :: |before| <= j < |orders| ==>
         orders[j] == if before == [] then plain[j] else plain[j].(desc := before[|before| - 1].desc)
  }

  lemma NextInPlace(before: seq<Order>, plain: seq<Order>, orders: seq<Order>, t: Order)
    requires TieInPlace(before, plain, orders)
    ensures
      var followed := if before == [] then t else t.(desc := before[|before| - 1].desc);
      TieInPlace(before, Add(plain, t), Add(orders, followed))
  {
    assert forall j :: 0 <= j < |orders| ==> orders[j].column == plain[j].column;
    assert Mentions(plain, t.column) <==> Mentions(orders, t.column);
  }

  lemma {:induction false} AddAllInPlace(before: seq<Order>, tie: seq<Order>)
    ensures TieInPlace(before, AddAll(before, tie), AddAll(before, Follow(tie, before)))
  {
    if tie == [] {
    } else {
      var n := |tie| - 1;
      AddAllInPlace(before, tie[..n]);
      assert Follow(tie, before)[..n] == Follow(tie[..n], before);
      NextInPlace(before, AddAll(before, tie[..n]), AddAll(before, Follow(tie[..n], before)), tie[n]);
    }
  }

  /** The whole of it: the first mentions of the head, of the orders the sort values ask for one by
      one, and of the tie, with the tie's directions in place. */
  ghost predicate ResolvedAsAsked(head: seq<Order>, tie: seq<Order>, sortable: Cols, sort: seq<string>,
                                  orders: seq<Order>)
  {
    exists requested ::
      && AskedInTurn(sortable, sort, requested)
      && TieInPlace(FirstMentions(head + requested), FirstMentions(head + requested + tie), orders)
  }

  lemma RequestedInPlace(head: seq<Order>, tie: seq<Order>, sortable: Cols, sort: seq<string>, requested: seq<Order>)
    requires Requested(sortable, sort) == Ok(requested)
    ensures Resolved(head, tie, sortable, sort).Ok?
    ensures TieInPlace(FirstMentions(head + requested), FirstMentions(head + requested + tie),
                       Resolved(head, tie, sortable, sort).value)
  {
    assert [] + (head + requested) == head + requested && FirstMentions([]) == [];
    AddAllIsFirstMentions([], head + requested);
    AddAllIsFirstMentions(head + requested, tie);
    AddAllInPlace(FirstMentions(head + requested), tie);
  }

  lemma ResolvedIsAsAsked(head: seq<Order>, tie: seq<Order>, sortable: Cols, sort: seq<string>)
    ensures match Resolved(head, tie, sortable, sort)
            case Ok(orders) => ResolvedAsAsked(head, tie, sortable, sort, orders)
            case Err(e) => RefusedAtFirst(sortable, sort, e)
  {
    RequestedIsAsked(sortable, sort);
    match Requested(sortable, sort)
    case Err(_) =>
    case Ok(requested) => RequestedInPlace(head, tie, sortable, sort, requested);
  }

  /** It leaves nothing open. */
  lemma AsAskedIsUnique(head: seq<Order>, tie: seq<Order>, sortable: Cols, sort: seq<string>, orders: seq<Order>)
    requires ResolvedAsAsked(head, tie, sortable, sort, orders)
    ensures Resolved(head, tie, sortable, sort) == Ok(orders)
  {
    var requested :|
      && AskedInTurn(sortable, sort, requested)
      && TieInPlace(FirstMentions(head + requested), FirstMentions(head + requested + tie), orders);
    AskedAreRequested(sortable, sort, requested);
    RequestedInPlace(head, tie, sortable, sort, requested);
    InPlaceIsUnique(FirstMentions(head + requested), FirstMentions(head + requested + tie), orders,
                    Resolved(head, tie, sortable, sort).value);
  }

  lemma InPlaceIsUnique(before: seq<Order>, plain: seq<Order>, a: seq<Order>, b: seq<Order>)
    requires TieInPlace(before, plain, a) && TieInPlace(before, plain, b)
    ensures a == b
  {
  }

  lemma LaterIsMentioned(before: seq<Order>, tie: seq<Order>, followed: seq<Order>, t: Order)
    requires |followed| == |tie| && forall i :: 0 <= i < |tie| ==> followed[i].column == tie[i].column
    requires t in tie
    ensures Mentions(FirstMentions(before + followed), t.column)
  {
    var i :| 0 <= i < |tie| && tie[i] == t;
    assert (before + followed)[|before| + i].column == t.column;
    FirstMentionsMention(before + followed, t.column);
  }

  lemma {:induction false} FirstMentionsAreMembers(orders: seq<Order>, o: Order)
    requires o in FirstMentions(orders)
    ensures o in orders
  {
    var n := |orders| - 1;
    if o !in FirstMentions(orders[..n]) {
      assert o == orders[n];
    } else {
      FirstMentionsAreMembers(orders[..n], o);
    }
  }

  /** If all that comes before the tie goes one way, so does the whole order. */
  lemma TieFollowsDirection(head: seq<Order>, tie: seq<Order>, sortable: Cols, sort: seq<string>,
                            requested: seq<Order>, desc: bool)
    requires Requested(sortable, sort) == Ok(requested) && head + requested != []
    requires forall o :: o in head + requested ==> o.desc == desc
    ensures forall o :: o in Resolved(head, tie, sortable, sort).value ==> o.desc == desc
  {
    var before := FirstMentions(head + requested);
    var followed := Follow(tie, before);
    ResolvedIsFirstMentions(head, tie, sortable, sort, requested);
    FirstMentionsMention(head + requested, (head + requested)[0].column);
    FirstMentionsAreMembers(head + requested, before[|before| - 1]);
    forall o | o in Resolved(head, tie, sortable, sort).value ensures o.desc == desc {
      FirstMentionsAreMembers(head + requested + followed, o);
    }
  }

  // ---- The order is total -----------------------------------------------------------------

  /** The tie columns tell any two rows of the result apart. */
  ghost predicate TieDistinguishes(tie: seq<Order>, rows: seq<Row>) {
    forall i, j :: 0 <= i < j < |rows| ==> TellsApart(tie, rows[i], rows[j])
  }

  ghost predicate TellsApart(tie: seq<Order>, a: Row, b: Row) {
    exists t :: t in tie && a.Cell(t.column) != b.Cell(t.column)
  }

  lemma {:induction false} TwicePlaces(rows: seq<Row>, r: Row) returns (i: nat, j: nat)
    requires multiset(rows)[r] >= 2
    ensures i < j < |rows| && rows[i] == r && rows[j] == r
  {
    var n := |rows| - 1;
    assert rows == rows[..n] + [rows[n]];
    if rows[n] == r {
      assert r in rows[..n];
      i :| 0 <= i < n && rows[..n][i] == r;
      j := n;
    } else {
      i, j := TwicePlaces(rows[..n], r);
    }
  }

  lemma KeysDiffer(orders: seq<Order>, column: string, r: Row, s: Row)
    requires Mentions(orders, column) && r.Cell(column) != s.Cell(column)
    ensures KeysOf(orders, r) != KeysOf(orders, s)
  {
    var k :| 0 <= k < |orders| && orders[k].column == column;
    assert KeysOf(orders, r)[k] == r.Cell(column) && KeysOf(orders, s)[k] == s.Cell(column);
  }

  lemma PairwiseIsDistinguished(orders: seq<Order>, rows: seq<Row>)
    requires forall i, j :: 0 <= i < j < |rows| ==> KeysOf(orders, rows[i]) != KeysOf(orders, rows[j])
    ensures Distinguished(orders, multiset(rows))
  {
    forall r | r in multiset(rows) ensures multiset(rows)[r] == 1 {
      if multiset(rows)[r] >= 2 {
        var i, j := TwicePlaces(rows, r);
      }
    }
    forall r, s | r in multiset(rows) && s in multiset(rows) && KeysOf(orders, r) == KeysOf(orders, s)
      ensures r == s
    {
      var i :| 0 <= i < |rows| && rows[i] == r;
      var j :| 0 <= j < |rows| && rows[j] == s;
    }
  }

  /** Rows the tie tells apart have different sort keys under any list with the tie's columns. */
  lemma TieMakesKeysDiffer(orders: seq<Order>, tie: seq<Order>, rows: seq<Row>)
    requires TieDistinguishes(tie, rows)
    requires forall t :: t in tie ==> Mentions(orders, t.column)
    ensures Distinguished(orders, multiset(rows))
  {
    forall i, j | 0 <= i < j < |rows| ensures KeysOf(orders, rows[i]) != KeysOf(orders, rows[j]) {
      var t :| t in tie && rows[i].Cell(t.column) != rows[j].Cell(t.column);
      KeysDiffer(orders, t.column, rows[i], rows[j]);
    }
    PairwiseIsDistinguished(orders, rows);
  }

  /** Under the resolved order, rows the tie tells apart are strictly and totally ordered. */
  lemma ResolvedOrderIsStrictAndTotal(head: seq<Order>, tie: seq<Order>, sortable: Cols, sort: seq<string>,
                                      rows: seq<Row>)
    requires Resolved(head, tie, sortable, sort).Ok? && TieDistinguishes(tie, rows)
    ensures
      var orders := Resolved(head, tie, sortable, sort).value;
      && (forall r :: r in rows ==> !RowBefore(orders, r, r))
      && (forall r, s :: r in rows && s in rows && r != s ==> (RowBefore(orders, r, s) <==> !RowBefore(orders, s, r)))
      && (forall r, s, t :: RowBefore(orders, r, s) && RowBefore(orders, s, t) ==> RowBefore(orders, r, t))
  {
    var orders := Resolved(head, tie, sortable, sort).value;
    ResolvedIsFirstMentions(head, tie, sortable, sort, Requested(sortable, sort).value);
    TieMakesKeysDiffer(orders, tie, rows);
    forall r, s | r in rows && s in rows && r != s ensures RowBefore(orders, r, s) <==> !RowBefore(orders, s, r) {
      assert r in multiset(rows) && s in multiset(rows);
      BeforeIsTotal(orders, KeysOf(orders, r), KeysOf(orders, s));
      if RowBefore(orders, r, s) { BeforeIsAsymmetric(orders, KeysOf(orders, r), KeysOf(orders, s)); }
    }
    forall r, s, t | RowBefore(orders, r, s) && RowBefore(orders, s, t) ensures RowBefore(orders, r, t) {
      BeforeIsTransitive(orders, KeysOf(orders, r), KeysOf(orders, s), KeysOf(orders, t));
    }
  }
}
