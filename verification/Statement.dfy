/** The statements a page runs, what a database may return for them, and the proof that limiting
    each branch of a keyset page loses nothing (afterSQL, page/query.go). */
module Statement {
  import opened Keyset
  import opened Predicate
  import opened Seek

  datatype Filter = Everything | Nothing | Where(condition: Predicate)

  /** One SELECT, or UNION ALL of one SELECT for each branch with its own ORDER BY and LIMIT, under
      an outer ORDER BY and LIMIT, or the SELECT of a numbered page. `limit` and `offset` are the
      placeholders of those bounds. */
  datatype Statement =
    | Select(filter: Filter, orders: seq<Order>, limit: nat)
    | UnionAll(branches: seq<Predicate>, orders: seq<Order>, limit: nat)
    | Numbered(orders: seq<Order>, limit: nat, offset: nat)

  function StatementFor(ps: seq<Predicate>, orders: seq<Order>, limit: nat): Statement {
    if |ps| == 0 then Select(Nothing, orders, limit)
    else if |ps| == 1 then Select(Where(ps[0]), orders, limit)
    else UnionAll(ps, orders, limit)
  }

  /** The statement afterSQL writes. */
  function AfterStatement(orders: seq<Order>, keys: seq<CursorKey>, limit: nat): Statement {
    if keys == [] then Select(Everything, orders, limit) else StatementFor(AfterPredicates(keys), orders, limit)
  }

  /** A union is written for two predicates or more; WHERE FALSE exactly if every key is NULL and
      sorts last; a row comparison alone exactly if every NULL sorts first. */
  lemma FormFollowsTheCursor(orders: seq<Order>, keys: seq<CursorKey>, limit: nat)
    requires keys != []
    ensures
      var st := AfterStatement(orders, keys, limit);
      && (st.UnionAll? <==> |AfterPredicates(keys)| > 1)
      && (st == Select(Nothing, orders, limit)
          <==> forall i :: 0 <= i < |keys| ==> keys[i].position.None? && NullSide(keys[i].order) == 1)
      && (Uniform(keys) ==>
            (st == Select(Where(TuplePredicate(keys)), orders, limit)
             <==> forall i :: 0 <= i < |keys| ==> NullSide(keys[i].order) == -1))
  {
    NoPredicatesIffCursorIsLast(keys);
    if Uniform(keys) { SinglePredicateIffNullsFirst(keys); }
  }

  // ---- What a database may return ---------------------------------------------------------

  function Keep(rows: seq<Row>, keep: Row -> bool): seq<Row> {
    if rows == [] then []
    else
      Keep(rows[..|rows| - 1], keep)
      + (if keep(rows[|rows| - 1]) then [rows[|rows| - 1]] else [])
  }

  function Passes(filter: Filter, args: seq<GoValue>): Row -> bool {
    match filter
    case Everything => (row: Row) => true
    case Nothing => (row: Row) => false
    case Where(p) => (row: Row) => Holds(p, row, args)
  }

  function Take(rows: seq<Row>, k: nat): (taken: seq<Row>)
    ensures |taken| == if |rows| < k then |rows| else k
    ensures taken <= rows
  {
    if |rows| < k then rows else rows[..k]
  }

  /** ORDER BY: some sorted arrangement of the rows. Rows with equal keys may come in any order. */
  ghost predicate Ordered(orders: seq<Order>, rows: seq<Row>, out: seq<Row>) {
    multiset(out) == multiset(rows) && Sorted(orders, out)
  }

  /** ORDER BY, then LIMIT. */
  ghost predicate OrderedLimited(orders: seq<Order>, k: nat, rows: seq<Row>, out: seq<Row>) {
    exists all :: Ordered(orders, rows, all) && out == Take(all, k)
  }

  function Drop(rows: seq<Row>, n: nat): seq<Row> {
    if n <= |rows| then rows[n..] else []
  }

  /** ORDER BY, then OFFSET, then LIMIT. */
  ghost predicate OrderedWindow(orders: seq<Order>, offset: nat, k: nat, rows: seq<Row>, out: seq<Row>) {
    exists all :: Ordered(orders, rows, all) && out == Take(Drop(all, offset), k)
  }

  function Concat(parts: seq<seq<Row>>): seq<Row> {
    if parts == [] then [] else Concat(parts[..|parts| - 1]) + parts[|parts| - 1]
  }

  ghost predicate BranchOutcomes(branches: seq<Predicate>, orders: seq<Order>, k: nat, base: seq<Row>,
                                 args: seq<GoValue>, parts: seq<seq<Row>>)
  {
    && |parts| == |branches|
    && forall i :: 0 <= i < |parts| ==>
         OrderedLimited(orders, k, Keep(base, Passes(Where(branches[i]), args)), parts[i])
  }

  /** The number bound to a limit or offset placeholder, as a bigint. */
  function LimitOf(args: seq<GoValue>, position: nat): nat {
    var d := Argument(args, position);
    if d.Value? && d.rank >= 0.0 then d.rank.Floor else 0
  }

  /** `out` is a result the database may return for the statement over these base rows. */
  ghost predicate Outcome(st: Statement, base: seq<Row>, args: seq<GoValue>, out: seq<Row>) {
    var k := LimitOf(args, st.limit);
    match st
    case Select(filter, orders, _) => OrderedLimited(orders, k, Keep(base, Passes(filter, args)), out)
    case UnionAll(branches, orders, _) =>
      exists parts ::
        BranchOutcomes(branches, orders, k, base, args, parts) && OrderedLimited(orders, k, Concat(parts), out)
    case Numbered(orders, _, offset) => OrderedWindow(orders, LimitOf(args, offset), k, base, out)
  }

  // ---- Filters and bags -------------------------------------------------------------------

  lemma {:induction false} KeepCounts(rows: seq<Row>, keep: Row -> bool, r: Row)
    ensures multiset(Keep(rows, keep))[r] == if keep(r) then multiset(rows)[r] else 0
  {
    if rows == [] {
    } else {
      var n := |rows| - 1;
      KeepCounts(rows[..n], keep, r);
      assert rows == rows[..n] + [rows[n]];
    }
  }

  lemma {:induction false} KeepAlike(rows: seq<Row>, one: Row -> bool, other: Row -> bool)
    requires forall r :: one(r) == other(r)
    ensures Keep(rows, one) == Keep(rows, other)
  {
    if rows == [] {
    } else {
      KeepAlike(rows[..|rows| - 1], one, other);
    }
  }

  lemma {:induction false} KeepOfConcat(a: seq<Row>, b: seq<Row>, keep: Row -> bool)
    ensures Keep(a + b, keep) == Keep(a, keep) + Keep(b, keep)
  {
    if b == [] {
      assert a + b == a;
    } else {
      var n := |b| - 1;
      KeepOfConcat(a, b[..n], keep);
      assert (a + b)[..|a + b| - 1] == a + b[..n];
    }
  }

  lemma KeepSameBag(a: seq<Row>, b: seq<Row>, keep: Row -> bool)
    requires multiset(a) == multiset(b)
    ensures multiset(Keep(a, keep)) == multiset(Keep(b, keep))
  {
    forall r ensures multiset(Keep(a, keep))[r] == multiset(Keep(b, keep))[r] {
      KeepCounts(a, keep, r);
      KeepCounts(b, keep, r);
    }
  }

  lemma KeepIsSubBag(rows: seq<Row>, keep: Row -> bool)
    ensures multiset(Keep(rows, keep)) <= multiset(rows)
  {
    forall r ensures multiset(Keep(rows, keep))[r] <= multiset(rows)[r] {
      KeepCounts(rows, keep, r);
    }
  }

  lemma KeepMembers(rows: seq<Row>, keep: Row -> bool, r: Row)
    ensures r in Keep(rows, keep) <==> r in rows && keep(r)
  {
    KeepCounts(rows, keep, r);
    assert r in Keep(rows, keep) <==> multiset(Keep(rows, keep))[r] > 0;
    assert r in rows <==> multiset(rows)[r] > 0;
  }

  lemma {:induction false} KeepStaysSorted(orders: seq<Order>, rows: seq<Row>, keep: Row -> bool)
    requires Sorted(orders, rows)
    ensures Sorted(orders, Keep(rows, keep))
  {
    if rows == [] {
    } else {
      var n := |rows| - 1;
      KeepStaysSorted(orders, rows[..n], keep);
      var kept := Keep(rows[..n], keep);
      forall i | 0 <= i < |kept| ensures !RowBefore(orders, rows[n], kept[i]) {
        KeepMembers(rows[..n], keep, kept[i]);
        var j :| 0 <= j < n && rows[j] == kept[i];
      }
    }
  }

  /** Sorting what a filter keeps is filtering the sorted rows. */
  lemma SortOfKeep(orders: seq<Order>, base: seq<Row>, all: seq<Row>, keep: Row -> bool, s: seq<Row>)
    requires Ordered(orders, base, all) && Distinguished(orders, multiset(base))
    requires Ordered(orders, Keep(base, keep), s)
    ensures s == Keep(all, keep)
  {
    KeepSameBag(base, all, keep);
    KeepStaysSorted(orders, all, keep);
    KeepIsSubBag(all, keep);
    SubBagKeeps(orders, multiset(all), multiset(Keep(all, keep)));
    SortedIsUnique(orders, s, Keep(all, keep));
  }

  // ---- Limit pushdown ---------------------------------------------------------------------

  /** The row at j stands in the filtered sequence after the rows kept before it. */
  lemma KeepPlaces(rows: seq<Row>, keep: Row -> bool, j: nat)
    requires j < |rows| && keep(rows[j])
    ensures |Keep(rows[..j], keep)| < |Keep(rows, keep)|
    ensures Keep(rows, keep)[|Keep(rows[..j], keep)|] == rows[j]
  {
    assert rows == rows[..j + 1] + rows[j + 1..];
    KeepOfConcat(rows[..j + 1], rows[j + 1..], keep);
    assert rows[..j + 1][..j] == rows[..j];
  }

  lemma {:induction false} KeepIsMonotone(rows: seq<Row>, few: Row -> bool, many: Row -> bool)
    requires forall r :: r in rows && few(r) ==> many(r)
    ensures |Keep(rows, few)| <= |Keep(rows, many)|
  {
    if rows == [] {
    } else {
      KeepIsMonotone(rows[..|rows| - 1], few, many);
    }
  }

  lemma FirstKOfLonger(a: seq<Row>, more: seq<Row>, k: nat)
    requires |a| >= k
    ensures Take(a + more, k) == Take(a, k)
  {
  }

  lemma FirstKStep(a: seq<Row>, b: seq<Row>, r: Row, inA: bool, inB: bool, k: nat)
    requires Take(a, k) == Take(b, k)
    requires inA ==> inB
    requires inB && |b| < k ==> inA
    ensures Take(a + (if inA then [r] else []), k) == Take(b + (if inB then [r] else []), k)
  {
    if |b| < k {
      assert a == b;
    } else {
      assert |a| >= k;
      FirstKOfLonger(a, if inA then [r] else [], k);
      FirstKOfLonger(b, if inB then [r] else [], k);
    }
  }

  /** If `few` keeps only rows `many` keeps, and every row that is among the first k of `many`,
      then both have the same first k rows. */
  lemma {:induction false} FirstKAgree(rows: seq<Row>, few: Row -> bool, many: Row -> bool, k: nat)
    requires forall r :: r in rows && few(r) ==> many(r)
    requires forall j :: 0 <= j < |rows| && many(rows[j]) && |Keep(rows[..j], many)| < k ==> few(rows[j])
    ensures Take(Keep(rows, few), k) == Take(Keep(rows, many), k)
  {
    if rows == [] {
    } else {
      var n := |rows| - 1;
      var front, r := rows[..n], rows[n];
      assert Take(Keep(front, few), k) == Take(Keep(front, many), k) by {
        assert forall j :: 0 <= j < n ==> front[..j] == rows[..j];
        FirstKAgree(front, few, many, k);
      }
      FirstKStep(Keep(front, few), Keep(front, many), r, few(r), many(r), k);
    }
  }

  /** Every row of the concatenated branches comes from the base, once for each predicate that
      holds of it at most. */
  lemma {:induction false} BranchesStayWithin(ps: seq<Predicate>, orders: seq<Order>, k: nat, base: seq<Row>,
                                              args: seq<GoValue>, parts: seq<seq<Row>>, r: Row)
    requires BranchOutcomes(ps, orders, k, base, args, parts)
    requires multiset(base)[r] <= 1
    ensures multiset(Concat(parts))[r] <= if r in base then TrueCount(ps, r, args) else 0
  {
    if ps == [] {
    } else {
      var n := |ps| - 1;
      BranchesStayWithin(ps[..n], orders, k, base, args, parts[..n], r);
      var keep := Passes(Where(ps[n]), args);
      var all :| Ordered(orders, Keep(base, keep), all) && parts[n] == Take(all, k);
      KeepCounts(base, keep, r);
      TakeIsSubBag(all, k);
      assert multiset(parts[n])[r] <= multiset(all)[r];
    }
  }

  lemma TakeIsSubBag(rows: seq<Row>, k: nat)
    ensures multiset(Take(rows, k)) <= multiset(rows)
  {
    assert rows == Take(rows, k) + rows[|Take(rows, k)|..];
  }

  lemma {:induction false} ConcatMembers(parts: seq<seq<Row>>, i: nat, r: Row)
    requires i < |parts| && r in parts[i]
    ensures r in Concat(parts)
  {
    if i == |parts| - 1 {
    } else {
      ConcatMembers(parts[..|parts| - 1], i, r);
    }
  }

  /** A row among the first k after the cursor survives the limit of its own branch. */
  lemma FirstKSurvive(ps: seq<Predicate>, orders: seq<Order>, k: nat, base: seq<Row>, all: seq<Row>,
                      args: seq<GoValue>, parts: seq<seq<Row>>, after: Row -> bool, j: nat)
    requires Ordered(orders, base, all) && Distinguished(orders, multiset(base))
    requires BranchOutcomes(ps, orders, k, base, args, parts)
    requires forall r :: TrueCount(ps, r, args) == if after(r) then 1 else 0
    requires j < |all| && after(all[j]) && |Keep(all[..j], after)| < k
    ensures all[j] in Concat(parts)
  {
    var i := TrueCountWitness(ps, all[j], args);
    var keep := Passes(Where(ps[i]), args);
    forall r | keep(r) ensures after(r) {
      OneHolds(ps, r, args, i);
    }
    KeepIsMonotone(all[..j], keep, after);
    KeepPlaces(all, keep, j);
    var s :| Ordered(orders, Keep(base, keep), s) && parts[i] == Take(s, k);
    SortOfKeep(orders, base, all, keep, s);
    assert parts[i][|Keep(all[..j], keep)|] == all[j];
    ConcatMembers(parts, i, all[j]);
  }

  /** Sorting the concatenated branches is keeping, of the sorted base, the rows they hold. */
  lemma SortOfConcat(ps: seq<Predicate>, orders: seq<Order>, k: nat, base: seq<Row>, all: seq<Row>,
                     args: seq<GoValue>, parts: seq<seq<Row>>, after: Row -> bool, s: seq<Row>)
    requires Ordered(orders, base, all) && Distinguished(orders, multiset(base))
    requires BranchOutcomes(ps, orders, k, base, args, parts)
    requires forall r :: TrueCount(ps, r, args) == if after(r) then 1 else 0
    requires Ordered(orders, Concat(parts), s)
    ensures s == Keep(all, (r: Row) => r in Concat(parts))
    ensures forall r :: r in Concat(parts) ==> after(r)
  {
    var union := Concat(parts);
    var held := (r: Row) => r in union;
    forall r
      ensures multiset(union)[r] == multiset(Keep(all, held))[r]
      ensures r in union ==> after(r)
    {
      BranchesStayWithin(ps, orders, k, base, args, parts, r);
      KeepCounts(all, held, r);
      assert r in union <==> multiset(union)[r] > 0;
      assert r in base <==> multiset(base)[r] > 0;
    }
    assert multiset(union) == multiset(Keep(all, held));
    KeepStaysSorted(orders, all, held);
    KeepIsSubBag(all, held);
    SubBagKeeps(orders, multiset(all), multiset(Keep(all, held)));
    SortedIsUnique(orders, s, Keep(all, held));
  }

  /** Limit pushdown: whatever each branch returns, the union returns the first k rows after the
      cursor. */
  lemma LimitPushdown(ps: seq<Predicate>, orders: seq<Order>, k: nat, base: seq<Row>, all: seq<Row>,
                      args: seq<GoValue>, parts: seq<seq<Row>>, after: Row -> bool, out: seq<Row>)
    requires Ordered(orders, base, all) && Distinguished(orders, multiset(base))
    requires BranchOutcomes(ps, orders, k, base, args, parts)
    requires forall r :: TrueCount(ps, r, args) == if after(r) then 1 else 0
    requires OrderedLimited(orders, k, Concat(parts), out)
    ensures out == Take(Keep(all, after), k)
  {
    var s :| Ordered(orders, Concat(parts), s) && out == Take(s, k);
    var held := (r: Row) => r in Concat(parts);
    assert s == Keep(all, held) && forall r :: held(r) ==> after(r) by {
      SortOfConcat(ps, orders, k, base, all, args, parts, after, s);
    }
    forall j | 0 <= j < |all| && after(all[j]) && |Keep(all[..j], after)| < k ensures held(all[j]) {
      FirstKSurvive(ps, orders, k, base, all, args, parts, after, j);
    }
    FirstKAgree(all, held, after, k);
  }

  // ---- Rows returned are base rows --------------------------------------------------------

  lemma {:induction false} ConcatSource(parts: seq<seq<Row>>, r: Row) returns (i: nat)
    requires r in Concat(parts)
    ensures i < |parts| && r in parts[i]
  {
    var n := |parts| - 1;
    if r in parts[n] { i := n; } else { i := ConcatSource(parts[..n], r); }
  }

  lemma LimitedSource(orders: seq<Order>, k: nat, rows: seq<Row>, out: seq<Row>, r: Row)
    requires OrderedLimited(orders, k, rows, out) && r in out
    ensures r in rows
  {
    var all :| Ordered(orders, rows, all) && out == Take(all, k);
    assert r in multiset(all);
  }

  lemma ReturnedRowsAreBaseRows(st: Statement, base: seq<Row>, args: seq<GoValue>, out: seq<Row>, r: Row)
    requires Outcome(st, base, args, out) && r in out
    ensures r in base
  {
    var k := LimitOf(args, st.limit);
    match st
    case Select(filter, orders, _) =>
      LimitedSource(orders, k, Keep(base, Passes(filter, args)), out, r);
      KeepMembers(base, Passes(filter, args), r);
    case UnionAll(branches, orders, _) =>
      var parts :| BranchOutcomes(branches, orders, k, base, args, parts)
                   && OrderedLimited(orders, k, Concat(parts), out);
      LimitedSource(orders, k, Concat(parts), out, r);
      var i := ConcatSource(parts, r);
      LimitedSource(orders, k, Keep(base, Passes(Where(branches[i]), args)), parts[i], r);
      KeepMembers(base, Passes(Where(branches[i]), args), r);
    case Numbered(orders, _, offset) =>
      var all :| Ordered(orders, base, all) && out == Take(Drop(all, LimitOf(args, offset)), k);
      assert r in multiset(all);
  }
}
