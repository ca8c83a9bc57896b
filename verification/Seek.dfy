/** The seek: the predicates that select the rows after a cursor (page/query.go). */
module Seek {
  import opened Wrappers
  import opened Keyset
  import opened Predicate

  /** One key of the cursor. `position` is the placeholder its value is bound to; a NULL key
      has none, which the source spells as an empty parameter. */
  datatype CursorKey = CursorKey(order: Order, position: Option<nat>)

  /** The key stands for this value: NULL has no placeholder, any other value is read from its own. */
  predicate Reads(key: CursorKey, value: GoValue, args: seq<GoValue>) {
    match key.position
    case None => value == Nil
    case Some(p) => value != Nil && 1 <= p <= |args| && args[p - 1] == value
  }

  ghost predicate Wired(keys: seq<CursorKey>, orders: seq<Order>, values: seq<GoValue>, args: seq<GoValue>) {
    && |keys| == |orders| == |values|
    && forall i :: 0 <= i < |keys| ==> keys[i].order == orders[i] && Reads(keys[i], values[i], args)
  }

  /** Keys a token can hold: anything but a nil slice, which the decoder refuses. */
  predicate Decodable(values: seq<GoValue>) {
    forall i :: 0 <= i < |values| ==> values[i] != NilBytes
  }

  // ---- What afterPredicates builds --------------------------------------------------------

  /** One row comparison serves: one direction, and no NULL key. */
  predicate Uniform(keys: seq<CursorKey>)
    requires keys != []
  {
    forall i :: 0 <= i < |keys| ==> keys[i].order.desc == keys[0].order.desc && keys[i].position.Some?
  }

  /** The row agrees with the cursor on this key. */
  function Agreement(key: CursorKey): Atom {
    match key.position
    case None => IsNull(key.order.column)
    case Some(p) => Equals(key.order.column, p)
  }

  function Prefix(keys: seq<CursorKey>): (atoms: seq<Atom>)
    ensures |atoms| == |keys|
  {
    seq(|keys|, i requires 0 <= i < |keys| => Agreement(keys[i]))
  }

  /** nullsFirst, as the source decides it. */
  predicate NullsGoFirst(order: Order) {
    order.nulls == NullsFirst || (order.nulls == NullsDefault && order.desc)
  }

  /** The atoms that put a row after the cursor by this key alone. The row comparison, when
      there is one, already covers the comparison of values. */
  function Deciders(key: CursorKey, tuple: bool): (atoms: seq<Atom>)
    ensures |atoms| <= 2
  {
    match key.position
    case None =>
      if NullsGoFirst(key.order) then [IsNotNull(key.order.column)] else []
    case Some(p) =>
      (if tuple then [] else [Beyond(key.order.column, key.order.desc, p)])
      + (if NullsGoFirst(key.order) then [] else [IsNull(key.order.column)])
  }

  /** The branches for rows that first differ from the cursor at key i. */
  function BranchesAt(keys: seq<CursorKey>, tuple: bool, i: nat): (branches: seq<Predicate>)
    requires i < |keys|
    ensures |branches| == |Deciders(keys[i], tuple)|
  {
    var deciders := Deciders(keys[i], tuple);
    seq(|deciders|, k requires 0 <= k < |deciders| => Conjunction(Prefix(keys[..i]), deciders[k]))
  }

  function Branches(keys: seq<CursorKey>, tuple: bool, n: nat): seq<Predicate>
    requires n <= |keys|
  {
    if n == 0 then [] else Branches(keys, tuple, n - 1) + BranchesAt(keys, tuple, n - 1)
  }

  function TuplePredicate(keys: seq<CursorKey>): Predicate
    requires keys != [] && Uniform(keys)
  {
    RowComparison(seq(|keys|, i requires 0 <= i < |keys| => keys[i].order.column),
                  keys[0].order.desc,
                  seq(|keys|, i requires 0 <= i < |keys| => keys[i].position.value))
  }

  function AfterPredicates(keys: seq<CursorKey>): seq<Predicate>
    requires keys != []
  {
    if Uniform(keys) then [TuplePredicate(keys)] + Branches(keys, true, |keys|)
    else Branches(keys, false, |keys|)
  }

  // ---- Exactness --------------------------------------------------------------------------

  lemma AgreementMeansEqual(key: CursorKey, value: GoValue, args: seq<GoValue>, row: Row)
    requires value != NilBytes && Reads(key, value, args)
    ensures EvalAtom(Agreement(key), row, args) == True <==> row.Cell(key.order.column) == Sql(value)
  {
  }

  lemma {:induction false} AllMeansEach(atoms: seq<Atom>, row: Row, args: seq<GoValue>)
    ensures EvalAll(atoms, row, args) == True
       <==> forall i :: 0 <= i < |atoms| ==> EvalAtom(atoms[i], row, args) == True
  {
    if atoms == [] {
    } else {
      AllMeansEach(atoms[..|atoms| - 1], row, args);
    }
  }

  /** The prefix of a branch holds of the rows that agree with the cursor that far. */
  lemma PrefixMeansEqual(keys: seq<CursorKey>, orders: seq<Order>, values: seq<GoValue>,
                         args: seq<GoValue>, row: Row, n: nat)
    requires Wired(keys, orders, values, args) && Decodable(values)
    requires n <= |keys|
    ensures EvalAll(Prefix(keys[..n]), row, args) == True
       <==> n <= FirstDifference(SqlAll(values), KeysOf(orders, row))
  {
    var atoms, xs, ys := Prefix(keys[..n]), SqlAll(values), KeysOf(orders, row);
    AllMeansEach(atoms, row, args);
    forall i | 0 <= i < n ensures EvalAtom(atoms[i], row, args) == True <==> xs[i] == ys[i] {
      AgreementMeansEqual(keys[i], values[i], args, row);
    }
    AgreeUpTo(xs, ys, n);
  }

  lemma AgreeUpTo(xs: seq<Datum>, ys: seq<Datum>, n: nat)
    requires n <= |xs| == |ys|
    ensures n <= FirstDifference(xs, ys) <==> forall i :: 0 <= i < n ==> xs[i] == ys[i]
  {
  }

  function AtomCount(atoms: seq<Atom>, row: Row, args: seq<GoValue>): nat {
    if atoms == [] then 0
    else
      AtomCount(atoms[..|atoms| - 1], row, args)
      + (if EvalAtom(atoms[|atoms| - 1], row, args) == True then 1 else 0)
  }

  lemma {:induction false} CountOfConjunctions(prefix: seq<Atom>, atoms: seq<Atom>, ps: seq<Predicate>,
                                               row: Row, args: seq<GoValue>)
    requires |ps| == |atoms| && forall k :: 0 <= k < |ps| ==> ps[k] == Conjunction(prefix, atoms[k])
    ensures TrueCount(ps, row, args)
         == if EvalAll(prefix, row, args) == True then AtomCount(atoms, row, args) else 0
  {
    if atoms == [] {
    } else {
      var n := |atoms| - 1;
      CountOfConjunctions(prefix, atoms[..n], ps[..n], row, args);
    }
  }

  lemma AtomCountOfOne(a: Atom, row: Row, args: seq<GoValue>)
    ensures AtomCount([a], row, args) == if EvalAtom(a, row, args) == True then 1 else 0
  {
    assert [a][..0] == [];
  }

  lemma AtomCountOfTwo(a: Atom, b: Atom, row: Row, args: seq<GoValue>)
    ensures AtomCount([a, b], row, args)
         == (if EvalAtom(a, row, args) == True then 1 else 0) + if EvalAtom(b, row, args) == True then 1 else 0
  {
    assert [a, b][..1] == [a];
    AtomCountOfOne(a, row, args);
  }

  /** It decides as the database places NULLs. */
  lemma NullsGoFirstAsSorted(order: Order)
    ensures NullsGoFirst(order) <==> NullSide(order) == -1
  {
  }

  lemma DecidersAreExact(key: CursorKey, tuple: bool, value: GoValue, args: seq<GoValue>, row: Row)
    requires value != NilBytes && Reads(key, value, args)
    requires tuple ==> key.position.Some?
    ensures
      var x, y := Sql(value), row.Cell(key.order.column);
      AtomCount(Deciders(key, tuple), row, args) ==
        if TermBefore(key.order, x, y) && (tuple ==> y.Null?) then 1 else 0
  {
    var atoms := Deciders(key, tuple);
    NullsGoFirstAsSorted(key.order);
    if |atoms| == 1 {
      AtomCountOfOne(atoms[0], row, args);
      assert atoms == [atoms[0]];
    } else if |atoms| == 2 {
      AtomCountOfTwo(atoms[0], atoms[1], row, args);
      assert atoms == [atoms[0], atoms[1]];
    }
  }

  /** One, if the tuples first differ at i and ys is after xs there; with the row comparison
      alongside, only if NULL decides. */
  function DecidedAt(orders: seq<Order>, xs: seq<Datum>, ys: seq<Datum>, tuple: bool, i: nat): nat
    requires i < |orders| == |xs| == |ys|
  {
    if FirstDifference(xs, ys) == i && TermBefore(orders[i], xs[i], ys[i]) && (tuple ==> ys[i].Null?) then 1 else 0
  }

  function DecidedBelow(orders: seq<Order>, xs: seq<Datum>, ys: seq<Datum>, tuple: bool, n: nat): nat
    requires n <= |orders| == |xs| == |ys|
  {
    var d := FirstDifference(xs, ys);
    if d < n then DecidedAt(orders, xs, ys, tuple, d) else 0
  }

  lemma DecidedNext(orders: seq<Order>, xs: seq<Datum>, ys: seq<Datum>, tuple: bool, n: nat)
    requires 0 < n <= |orders| == |xs| == |ys|
    ensures DecidedBelow(orders, xs, ys, tuple, n)
            == DecidedBelow(orders, xs, ys, tuple, n - 1) + DecidedAt(orders, xs, ys, tuple, n - 1)
  {
  }

  /** Branch by branch: the branches for key i hold once if the row first differs at i and is
      after the cursor there, and otherwise not at all. With the row comparison alongside, only
      the NULLs-last transition is left to them. */
  lemma BranchesAtAreExact(keys: seq<CursorKey>, tuple: bool, orders: seq<Order>, values: seq<GoValue>,
                           args: seq<GoValue>, row: Row, i: nat)
    requires Wired(keys, orders, values, args) && Decodable(values)
    requires i < |keys| && (tuple ==> Uniform(keys))
    ensures TrueCount(BranchesAt(keys, tuple, i), row, args)
            == DecidedAt(orders, SqlAll(values), KeysOf(orders, row), tuple, i)
  {
    var xs, ys := SqlAll(values), KeysOf(orders, row);
    var deciders, prefix := Deciders(keys[i], tuple), Prefix(keys[..i]);
    assert TrueCount(BranchesAt(keys, tuple, i), row, args)
        == if i <= FirstDifference(xs, ys) then AtomCount(deciders, row, args) else 0 by {
      CountOfConjunctions(prefix, deciders, BranchesAt(keys, tuple, i), row, args);
      PrefixMeansEqual(keys, orders, values, args, row, i);
    }
    assert AtomCount(deciders, row, args)
        == if TermBefore(orders[i], xs[i], ys[i]) && (tuple ==> ys[i].Null?) then 1 else 0 by {
      DecidersAreExact(keys[i], tuple, values[i], args, row);
    }
  }

  /** The branches for the first n keys count one on a row decided among them, and none on others. */
  ghost predicate CountsBelow(keys: seq<CursorKey>, tuple: bool, orders: seq<Order>, values: seq<GoValue>,
                              args: seq<GoValue>, row: Row, n: nat)
    requires n <= |keys| == |orders| == |values|
  {
    TrueCount(Branches(keys, tuple, n), row, args)
      == DecidedBelow(orders, SqlAll(values), KeysOf(orders, row), tuple, n)
  }

  lemma {:induction false} BranchesAreExact(keys: seq<CursorKey>, tuple: bool, orders: seq<Order>, values: seq<GoValue>,
                                            args: seq<GoValue>, row: Row, n: nat)
    requires Wired(keys, orders, values, args) && Decodable(values)
    requires keys != [] && n <= |keys| && (tuple ==> Uniform(keys))
    ensures CountsBelow(keys, tuple, orders, values, args, row, n)
  {
    if n == 0 {
      assert Branches(keys, tuple, 0) == [];
    } else {
      BranchesAreExact(keys, tuple, orders, values, args, row, n - 1);
      BranchesAtAreExact(keys, tuple, orders, values, args, row, n - 1);
      NextBranchesAreExact(keys, tuple, orders, values, args, row, n);
    }
  }

  lemma NextBranchesAreExact(keys: seq<CursorKey>, tuple: bool, orders: seq<Order>, values: seq<GoValue>,
                             args: seq<GoValue>, row: Row, n: nat)
    requires 0 < n <= |keys| == |orders| == |values|
    requires CountsBelow(keys, tuple, orders, values, args, row, n - 1)
    requires TrueCount(BranchesAt(keys, tuple, n - 1), row, args)
             == DecidedAt(orders, SqlAll(values), KeysOf(orders, row), tuple, n - 1)
    ensures CountsBelow(keys, tuple, orders, values, args, row, n)
  {
    var xs, ys := SqlAll(values), KeysOf(orders, row);
    DecidedNext(orders, xs, ys, tuple, n);
    CountsAdd(Branches(keys, tuple, n), Branches(keys, tuple, n - 1), BranchesAt(keys, tuple, n - 1), row, args,
              DecidedBelow(orders, xs, ys, tuple, n - 1), DecidedAt(orders, xs, ys, tuple, n - 1));
  }

  lemma CountsAdd(whole: seq<Predicate>, front: seq<Predicate>, at: seq<Predicate>, row: Row, args: seq<GoValue>,
                  a: nat, b: nat)
    requires whole == front + at && TrueCount(front, row, args) == a && TrueCount(at, row, args) == b
    ensures TrueCount(whole, row, args) == a + b
  {
    TrueCountOfConcat(front, at, row, args);
  }

  /** A row comparison against non-NULL bounds is decided at the first difference. */
  lemma {:induction false} PairsDecideAtFirstDifference(desc: bool, cells: seq<Datum>, bounds: seq<Datum>)
    requires |cells| == |bounds|
    requires forall i :: 0 <= i < |bounds| ==> bounds[i].Value?
    ensures
      var d := FirstDifference(bounds, cells);
      EvalPairs(desc, cells, bounds) == if d == |cells| then False else BeyondTruth(desc, cells[d], bounds[d])
  {
    if cells == [] || cells[0] != bounds[0] {
    } else {
      PairsDecideAtFirstDifference(desc, cells[1..], bounds[1..]);
      assert bounds == [bounds[0]] + bounds[1..] && cells == [cells[0]] + cells[1..];
    }
  }

  lemma TupleIsExact(keys: seq<CursorKey>, orders: seq<Order>, values: seq<GoValue>, args: seq<GoValue>, row: Row)
    requires Wired(keys, orders, values, args) && Decodable(values)
    requires keys != [] && Uniform(keys)
    ensures
      var xs, ys := SqlAll(values), KeysOf(orders, row);
      var d := FirstDifference(xs, ys);
      Holds(TuplePredicate(keys), row, args) <==> d < |keys| && TermBefore(orders[d], xs[d], ys[d]) && ys[d].Value?
  {
    var xs, ys := SqlAll(values), KeysOf(orders, row);
    var p := TuplePredicate(keys);
    assert Arguments(args, p.parameters) == xs;
    assert CellsOf(p.columns, row) == ys;
    PairsDecideAtFirstDifference(p.desc, ys, xs);
  }

  /** Exactly one predicate is TRUE of a row strictly after the cursor, and none of any other
      row: UNION ALL neither drops a row nor repeats one. */
  lemma SeekIsExact(keys: seq<CursorKey>, orders: seq<Order>, values: seq<GoValue>, args: seq<GoValue>, row: Row)
    requires Wired(keys, orders, values, args) && Decodable(values)
    requires keys != []
    ensures TrueCount(AfterPredicates(keys), row, args)
         == if Before(orders, SqlAll(values), KeysOf(orders, row)) then 1 else 0
  {
    BranchesAreExact(keys, Uniform(keys), orders, values, args, row, |keys|);
    if Uniform(keys) {
      TupleIsExact(keys, orders, values, args, row);
      TrueCountOfConcat([TuplePredicate(keys)], Branches(keys, true, |keys|), row, args);
      assert TrueCount([TuplePredicate(keys)], row, args) == if Holds(TuplePredicate(keys), row, args) then 1 else 0;
    }
  }

  /** Said of the predicates one by one. */
  lemma SeekHitsOnce(keys: seq<CursorKey>, orders: seq<Order>, values: seq<GoValue>, args: seq<GoValue>, row: Row)
    requires Wired(keys, orders, values, args) && Decodable(values)
    requires keys != []
    ensures
      var ps := AfterPredicates(keys);
      if Before(orders, SqlAll(values), KeysOf(orders, row))
      then exists i :: 0 <= i < |ps| && Holds(ps[i], row, args)
                       && forall j :: 0 <= j < |ps| && j != i ==> !Holds(ps[j], row, args)
      else forall j :: 0 <= j < |ps| ==> !Holds(ps[j], row, args)
  {
    SeekIsExact(keys, orders, values, args, row);
    CountOfOneIsUnique(AfterPredicates(keys), row, args);
  }

  /** The fast form refines the simple one: with the row comparison, the predicates select the
      rows the per-key expansion selects, NULL cells included. */
  lemma RowComparisonRefinesExpansion(keys: seq<CursorKey>, orders: seq<Order>, values: seq<GoValue>,
                                      args: seq<GoValue>, row: Row)
    requires Wired(keys, orders, values, args) && Decodable(values)
    requires keys != [] && Uniform(keys)
    ensures TrueCount([TuplePredicate(keys)] + Branches(keys, true, |keys|), row, args)
         == TrueCount(Branches(keys, false, |keys|), row, args)
  {
    SeekIsExact(keys, orders, values, args, row);
    BranchesAreExact(keys, false, orders, values, args, row, |keys|);
  }

  lemma {:induction false} NoBranches(keys: seq<CursorKey>, n: nat)
    requires n <= |keys|
    ensures Branches(keys, false, n) == []
       <==> forall i :: 0 <= i < n ==> keys[i].position == None && NullSide(keys[i].order) == 1
  {
    if n == 0 {
    } else {
      NoBranches(keys, n - 1);
      assert Branches(keys, false, n) == [] <==>
        Branches(keys, false, n - 1) == [] && Deciders(keys[n - 1], false) == [];
    }
  }

  /** WHERE FALSE is written exactly when every key is NULL and goes last: nothing can follow. */
  lemma NoPredicatesIffCursorIsLast(keys: seq<CursorKey>)
    requires keys != []
    ensures AfterPredicates(keys) == []
       <==> forall i :: 0 <= i < |keys| ==> keys[i].position == None && NullSide(keys[i].order) == 1
  {
    NoBranches(keys, |keys|);
  }

  lemma {:induction false} NoNullBranches(keys: seq<CursorKey>, n: nat)
    requires n <= |keys| && keys != [] && Uniform(keys)
    ensures Branches(keys, true, n) == [] <==> forall i :: 0 <= i < n ==> NullSide(keys[i].order) == -1
  {
    if n == 0 {
    } else {
      NoNullBranches(keys, n - 1);
      assert Branches(keys, true, n) == [] <==> Branches(keys, true, n - 1) == [] && Deciders(keys[n - 1], true) == [];
    }
  }

  /** One row comparison is the whole seek exactly when no column puts its NULLs last. */
  lemma SinglePredicateIffNullsFirst(keys: seq<CursorKey>)
    requires keys != [] && Uniform(keys)
    ensures AfterPredicates(keys) == [TuplePredicate(keys)]
       <==> forall i :: 0 <= i < |keys| ==> NullSide(keys[i].order) == -1
  {
    NoNullBranches(keys, |keys|);
  }
}
