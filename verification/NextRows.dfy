/** What a keyset page returns: always the next rows, whichever form the statement takes. */
module NextRows {
  import opened Keyset
  import opened Predicate
  import opened Seek
  import opened Statement

  /** Strictly after the cursor in the ORDER BY. */
  function AfterCursor(orders: seq<Order>, values: seq<GoValue>): Row -> bool
    requires |orders| == |values|
  {
    (row: Row) => Before(orders, SqlAll(values), KeysOf(orders, row))
  }

  lemma PredicatesCountAfter(keys: seq<CursorKey>, orders: seq<Order>, values: seq<GoValue>, args: seq<GoValue>)
    requires Wired(keys, orders, values, args) && Decodable(values) && keys != []
    ensures forall r: Row :: TrueCount(AfterPredicates(keys), r, args)
                             == if AfterCursor(orders, values)(r) then 1 else 0
  {
    forall r: Row
      ensures TrueCount(AfterPredicates(keys), r, args) == if AfterCursor(orders, values)(r) then 1 else 0
    {
      SeekIsExact(keys, orders, values, args, r);
    }
  }

  lemma SelectReturnsKept(filter: Filter, orders: seq<Order>, limit: nat, args: seq<GoValue>, after: Row -> bool,
                          base: seq<Row>, all: seq<Row>, out: seq<Row>)
    requires Ordered(orders, base, all) && Distinguished(orders, multiset(base))
    requires forall r :: Passes(filter, args)(r) == after(r)
    requires Outcome(Select(filter, orders, limit), base, args, out)
    ensures out == Take(Keep(all, after), LimitOf(args, limit))
  {
    var keep := Passes(filter, args);
    var s :| Ordered(orders, Keep(base, keep), s) && out == Take(s, LimitOf(args, limit));
    SortOfKeep(orders, base, all, keep, s);
    KeepAlike(all, keep, after);
  }

  lemma AtMostOnePredicate(ps: seq<Predicate>, args: seq<GoValue>, after: Row -> bool, filter: Filter)
    requires forall r: Row :: TrueCount(ps, r, args) == if after(r) then 1 else 0
    requires |ps| <= 1 && filter == if |ps| == 0 then Nothing else Where(ps[0])
    ensures forall r :: Passes(filter, args)(r) == after(r)
  {
    forall r ensures Passes(filter, args)(r) == after(r) {
      assert TrueCount(ps, r, args) == if after(r) then 1 else 0;
      if |ps| == 1 {
        assert ps[..0] == [];
        assert TrueCount(ps, r, args) == TrueCount([], r, args) + if Holds(ps[0], r, args) then 1 else 0;
      }
    }
  }

  /** Every result the database may return for the page is the first `limit` rows, in order, of
      those strictly after the cursor: in one SELECT, in UNION ALL, and for WHERE FALSE. */
  lemma PageIsNextRows(keys: seq<CursorKey>, orders: seq<Order>, values: seq<GoValue>, args: seq<GoValue>, limit: nat,
                       base: seq<Row>, all: seq<Row>, out: seq<Row>)
    requires Wired(keys, orders, values, args) && Decodable(values) && keys != []
    requires Ordered(orders, base, all) && Distinguished(orders, multiset(base))
    requires Outcome(AfterStatement(orders, keys, limit), base, args, out)
    ensures out == Take(Keep(all, AfterCursor(orders, values)), LimitOf(args, limit))
  {
    var ps, after := AfterPredicates(keys), AfterCursor(orders, values);
    PredicatesCountAfter(keys, orders, values, args);
    PageOfPredicates(ps, orders, args, limit, after, base, all, out);
  }

  lemma PageOfPredicates(ps: seq<Predicate>, orders: seq<Order>, args: seq<GoValue>, limit: nat, after: Row -> bool,
                         base: seq<Row>, all: seq<Row>, out: seq<Row>)
    requires forall r: Row :: TrueCount(ps, r, args) == if after(r) then 1 else 0
    requires Ordered(orders, base, all) && Distinguished(orders, multiset(base))
    requires Outcome(StatementFor(ps, orders, limit), base, args, out)
    ensures out == Take(Keep(all, after), LimitOf(args, limit))
  {
    if |ps| > 1 {
      var k := LimitOf(args, limit);
      var parts :| BranchOutcomes(ps, orders, k, base, args, parts) && OrderedLimited(orders, k, Concat(parts), out);
      LimitPushdown(ps, orders, k, base, all, args, parts, after, out);
    } else {
      var filter := if |ps| == 0 then Nothing else Where(ps[0]);
      AtMostOnePredicate(ps, args, after, filter);
      SelectReturnsKept(filter, orders, limit, args, after, base, all, out);
    }
  }

  lemma {:induction false} KeepEverything(rows: seq<Row>, keep: Row -> bool)
    requires forall r :: r in rows ==> keep(r)
    ensures Keep(rows, keep) == rows
  {
    if rows == [] {
    } else {
      KeepEverything(rows[..|rows| - 1], keep);
    }
  }

  lemma {:induction false} KeepNothing(rows: seq<Row>, keep: Row -> bool)
    requires forall r :: r in rows ==> !keep(r)
    ensures Keep(rows, keep) == []
  {
    if rows == [] {
    } else {
      KeepNothing(rows[..|rows| - 1], keep);
    }
  }

  /** Without a cursor the page starts at the first row. */
  lemma FirstPageStartsAtTheTop(orders: seq<Order>, args: seq<GoValue>, limit: nat,
                                base: seq<Row>, all: seq<Row>, out: seq<Row>)
    requires Ordered(orders, base, all) && Distinguished(orders, multiset(base))
    requires Outcome(AfterStatement(orders, [], limit), base, args, out)
    ensures out == Take(all, LimitOf(args, limit))
  {
    var everything := Passes(Everything, args);
    SelectReturnsKept(Everything, orders, limit, args, everything, base, all, out);
    KeepEverything(all, everything);
  }

  lemma KeepTheRest(rows: seq<Row>, n: nat, keep: Row -> bool)
    requires n <= |rows|
    requires forall r :: r in rows[..n] ==> !keep(r)
    requires forall r :: r in rows[n..] ==> keep(r)
    ensures Keep(rows, keep) == rows[n..]
  {
    KeepNothing(rows[..n], keep);
    KeepEverything(rows[n..], keep);
    KeepOfConcat(rows[..n], rows[n..], keep);
    assert rows == rows[..n] + rows[n..];
  }

  lemma NoneBeforeTheCursor(orders: seq<Order>, all: seq<Row>, c: nat, r: Row)
    requires c < |all| && Sorted(orders, all)
    requires r in all[..c + 1]
    ensures !RowBefore(orders, all[c], r)
  {
    var i :| 0 <= i <= c && all[i] == r;
    BeforeIsIrreflexive(orders, KeysOf(orders, r));
  }

  lemma AllAfterTheCursor(orders: seq<Order>, all: seq<Row>, c: nat, r: Row)
    requires c < |all| && Sorted(orders, all) && Distinguished(orders, multiset(all))
    requires r in all[c + 1..]
    ensures RowBefore(orders, all[c], r)
  {
    var i :| c < i < |all| && all[i] == r;
    SortedIsStrict(orders, all, c, i);
  }

  /** The rows after row c of the sorted result are the rest of it. */
  lemma RowsAfterAreTheRest(orders: seq<Order>, values: seq<GoValue>, all: seq<Row>, c: nat)
    requires |orders| == |values| && c < |all|
    requires Sorted(orders, all) && Distinguished(orders, multiset(all))
    requires SqlAll(values) == KeysOf(orders, all[c])
    ensures Keep(all, AfterCursor(orders, values)) == all[c + 1..]
  {
    var after := AfterCursor(orders, values);
    forall r | r in all[..c + 1] ensures !after(r) { NoneBeforeTheCursor(orders, all, c, r); }
    forall r | r in all[c + 1..] ensures after(r) { AllAfterTheCursor(orders, all, c, r); }
    KeepTheRest(all, c + 1, after);
  }

  // ---- Every statement has an outcome -----------------------------------------------------

  function Insert(orders: seq<Order>, row: Row, sorted: seq<Row>): seq<Row> {
    if sorted == [] || RowBefore(orders, row, sorted[0]) then [row] + sorted
    else [sorted[0]] + Insert(orders, row, sorted[1..])
  }

  function Sort(orders: seq<Order>, rows: seq<Row>): seq<Row> {
    if rows == [] then [] else Insert(orders, rows[|rows| - 1], Sort(orders, rows[..|rows| - 1]))
  }

  lemma {:induction false} InsertKeepsTheBag(orders: seq<Order>, row: Row, sorted: seq<Row>)
    ensures multiset(Insert(orders, row, sorted)) == multiset(sorted) + multiset{row}
  {
    if sorted == [] || RowBefore(orders, row, sorted[0]) {
    } else {
      InsertKeepsTheBag(orders, row, sorted[1..]);
      assert sorted == [sorted[0]] + sorted[1..];
    }
  }

  /** If b is not before a, and c is not before b, then c is not before a. */
  lemma NotBeforeIsTransitive(orders: seq<Order>, a: Row, b: Row, c: Row)
    requires !RowBefore(orders, b, a) && !RowBefore(orders, c, b)
    ensures !RowBefore(orders, c, a)
  {
    var x, y, z := KeysOf(orders, a), KeysOf(orders, b), KeysOf(orders, c);
    BeforeIsTotal(orders, x, y);
    BeforeIsTotal(orders, y, z);
    if Before(orders, z, x) {
      if Before(orders, x, y) {
        BeforeIsTransitive(orders, z, x, y);
      }
    }
  }

  lemma {:induction false} InsertStaysSorted(orders: seq<Order>, row: Row, sorted: seq<Row>)
    requires Sorted(orders, sorted)
    ensures Sorted(orders, Insert(orders, row, sorted))
  {
    if sorted == [] {
    } else {
      var out := Insert(orders, row, sorted);
      if RowBefore(orders, row, sorted[0]) {
        BeforeIsAsymmetric(orders, KeysOf(orders, row), KeysOf(orders, sorted[0]));
        forall j | 0 < j < |out| ensures !RowBefore(orders, out[j], row) {
          if j > 1 { NotBeforeIsTransitive(orders, row, sorted[0], sorted[j - 1]); }
        }
      } else {
        InsertStaysSorted(orders, row, sorted[1..]);
        InsertKeepsTheBag(orders, row, sorted[1..]);
        forall j | 0 < j < |out| ensures !RowBefore(orders, out[j], sorted[0]) {
          assert out[j] in multiset(Insert(orders, row, sorted[1..]));
          assert out[j] == row || out[j] in sorted[1..];
        }
      }
    }
  }

  lemma {:induction false} SortIsOrdered(orders: seq<Order>, rows: seq<Row>)
    ensures Ordered(orders, rows, Sort(orders, rows))
  {
    if rows == [] {
    } else {
      var n := |rows| - 1;
      SortIsOrdered(orders, rows[..n]);
      InsertKeepsTheBag(orders, rows[n], Sort(orders, rows[..n]));
      InsertStaysSorted(orders, rows[n], Sort(orders, rows[..n]));
      assert rows == rows[..n] + [rows[n]];
    }
  }

  function RunSelect(filter: Filter, orders: seq<Order>, k: nat, rows: seq<Row>, args: seq<GoValue>): seq<Row> {
    Take(Sort(orders, Keep(rows, Passes(filter, args))), k)
  }

  function RunBranches(ps: seq<Predicate>, orders: seq<Order>, k: nat, rows: seq<Row>, args: seq<GoValue>)
    : (parts: seq<seq<Row>>)
    ensures |parts| == |ps|
  {
    seq(|ps|, i requires 0 <= i < |ps| => RunSelect(Where(ps[i]), orders, k, rows, args))
  }

  /** One way to run a statement. */
  function Run(st: Statement, rows: seq<Row>, args: seq<GoValue>): seq<Row> {
    var k := LimitOf(args, st.limit);
    match st
    case Select(filter, orders, _) => RunSelect(filter, orders, k, rows, args)
    case UnionAll(ps, orders, _) => Take(Sort(orders, Concat(RunBranches(ps, orders, k, rows, args))), k)
    case Numbered(orders, _, offset) => Take(Drop(Sort(orders, rows), LimitOf(args, offset)), k)
  }

  /** A statement always has an outcome, so the theorems above speak of something. */
  lemma RunIsAnOutcome(st: Statement, rows: seq<Row>, args: seq<GoValue>)
    ensures Outcome(st, rows, args, Run(st, rows, args))
  {
    var k := LimitOf(args, st.limit);
    match st
    case Select(filter, orders, _) =>
      SortIsOrdered(orders, Keep(rows, Passes(filter, args)));
    case UnionAll(ps, orders, _) =>
      var parts := RunBranches(ps, orders, k, rows, args);
      forall i | 0 <= i < |ps|
        ensures OrderedLimited(orders, k, Keep(rows, Passes(Where(ps[i]), args)), parts[i])
      {
        SortIsOrdered(orders, Keep(rows, Passes(Where(ps[i]), args)));
      }
      assert BranchOutcomes(ps, orders, k, rows, args, parts);
      SortIsOrdered(orders, Concat(parts));
    case Numbered(orders, _, offset) =>
      SortIsOrdered(orders, rows);
  }
}
