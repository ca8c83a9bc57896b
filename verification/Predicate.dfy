/** The WHERE predicates a keyset page uses, and their three-valued meaning. */
module Predicate {
  import opened Keyset

  datatype Truth = True | False | Unknown

  /** `column = $p`, `column > $p` (or `<`), `column IS NULL`, `column IS NOT NULL`. */
  datatype Atom =
    | Equals(column: string, parameter: nat)
    | Beyond(column: string, desc: bool, parameter: nat)
    | IsNull(column: string)
    | IsNotNull(column: string)

  /** A conjunction of atoms, or one row comparison `(c, d) > ($1, $2)` (or `<`). */
  datatype Predicate =
    | Conjunction(prefix: seq<Atom>, last: Atom)
    | RowComparison(columns: seq<string>, desc: bool, parameters: seq<nat>)

  /** The value bound to `$position`. */
  function Argument(args: seq<GoValue>, position: nat): Datum {
    if 1 <= position <= |args| then Sql(args[position - 1]) else Null
  }

  function FromBool(b: bool): Truth {
    if b then True else False
  }

  function And(a: Truth, b: Truth): Truth {
    if a == False || b == False then False
    else if a == Unknown || b == Unknown then Unknown
    else True
  }

  function EqualTruth(x: Datum, y: Datum): Truth {
    if x.Null? || y.Null? then Unknown else FromBool(x.rank == y.rank)
  }

  function BeyondTruth(desc: bool, x: Datum, y: Datum): Truth {
    if x.Null? || y.Null? then Unknown
    else FromBool(if desc then x.rank < y.rank else x.rank > y.rank)
  }

  function EvalAtom(atom: Atom, row: Row, args: seq<GoValue>): Truth {
    match atom
    case Equals(column, p) => EqualTruth(row.Cell(column), Argument(args, p))
    case Beyond(column, desc, p) => BeyondTruth(desc, row.Cell(column), Argument(args, p))
    case IsNull(column) => FromBool(row.Cell(column).Null?)
    case IsNotNull(column) => FromBool(row.Cell(column).Value?)
  }

  function EvalAll(atoms: seq<Atom>, row: Row, args: seq<GoValue>): Truth {
    if atoms == [] then True
    else And(EvalAll(atoms[..|atoms| - 1], row, args), EvalAtom(atoms[|atoms| - 1], row, args))
  }

  /** Row comparison, section 8.2 of ISO/IEC 9075-2: pairs are compared left to right, equal
      pairs are passed over, and the first pair that is unequal or has a NULL decides. */
  function EvalPairs(desc: bool, cells: seq<Datum>, bounds: seq<Datum>): Truth
    requires |cells| == |bounds|
  {
    if cells == [] then False
    else
      match EqualTruth(cells[0], bounds[0])
      case Unknown => Unknown
      case True => EvalPairs(desc, cells[1..], bounds[1..])
      case False => BeyondTruth(desc, cells[0], bounds[0])
  }

  function CellsOf(columns: seq<string>, row: Row): (cells: seq<Datum>)
    ensures |cells| == |columns|
  {
    seq(|columns|, i requires 0 <= i < |columns| => row.Cell(columns[i]))
  }

  function Arguments(args: seq<GoValue>, positions: seq<nat>): (ds: seq<Datum>)
    ensures |ds| == |positions|
  {
    seq(|positions|, i requires 0 <= i < |positions| => Argument(args, positions[i]))
  }

  /** A row comparison of unequal lengths is a syntax error; nothing is TRUE of it. */
  function Eval(p: Predicate, row: Row, args: seq<GoValue>): Truth {
    match p
    case Conjunction(prefix, last) => And(EvalAll(prefix, row, args), EvalAtom(last, row, args))
    case RowComparison(columns, desc, parameters) =>
      if |columns| != |parameters| then Unknown
      else EvalPairs(desc, CellsOf(columns, row), Arguments(args, parameters))
  }

  /** WHERE keeps a row on TRUE only. */
  predicate Holds(p: Predicate, row: Row, args: seq<GoValue>) {
    Eval(p, row, args) == True
  }

  function TrueCount(ps: seq<Predicate>, row: Row, args: seq<GoValue>): nat {
    if ps == [] then 0
    else TrueCount(ps[..|ps| - 1], row, args) + (if Holds(ps[|ps| - 1], row, args) then 1 else 0)
  }

  lemma {:induction false} TrueCountOfConcat(ps: seq<Predicate>, qs: seq<Predicate>, row: Row, args: seq<GoValue>)
    ensures TrueCount(ps + qs, row, args) == TrueCount(ps, row, args) + TrueCount(qs, row, args)
  {
    if qs == [] {
      assert ps + qs == ps;
    } else {
      var n := |qs| - 1;
      TrueCountOfConcat(ps, qs[..n], row, args);
      assert (ps + qs)[..|ps + qs| - 1] == ps + qs[..n];
    }
  }

  /** TrueCount counts: it is at least one for every index that holds, and zero if none does. */
  lemma {:induction false} TrueCountWitness(ps: seq<Predicate>, row: Row, args: seq<GoValue>) returns (i: nat)
    requires TrueCount(ps, row, args) > 0
    ensures i < |ps| && Holds(ps[i], row, args)
  {
    if Holds(ps[|ps| - 1], row, args) {
      i := |ps| - 1;
    } else {
      i := TrueCountWitness(ps[..|ps| - 1], row, args);
    }
  }

  lemma {:induction false} OneHolds(ps: seq<Predicate>, row: Row, args: seq<GoValue>, i: nat)
    requires i < |ps| && Holds(ps[i], row, args)
    ensures TrueCount(ps, row, args) >= 1
  {
    if i == |ps| - 1 {
    } else {
      OneHolds(ps[..|ps| - 1], row, args, i);
    }
  }

  lemma {:induction false} TwoHold(ps: seq<Predicate>, row: Row, args: seq<GoValue>, i: nat, j: nat)
    requires i < j < |ps| && Holds(ps[i], row, args) && Holds(ps[j], row, args)
    ensures TrueCount(ps, row, args) >= 2
  {
    if j < |ps| - 1 {
      TwoHold(ps[..|ps| - 1], row, args, i, j);
    } else {
      OneHolds(ps[..|ps| - 1], row, args, i);
    }
  }

  /** A count of one is one predicate that holds and no other; a count of none is none. */
  lemma CountOfOneIsUnique(ps: seq<Predicate>, row: Row, args: seq<GoValue>)
    ensures TrueCount(ps, row, args) == 1 ==>
              exists i :: 0 <= i < |ps| && Holds(ps[i], row, args)
                && forall j :: 0 <= j < |ps| && j != i ==> !Holds(ps[j], row, args)
    ensures TrueCount(ps, row, args) == 0 ==> forall j :: 0 <= j < |ps| ==> !Holds(ps[j], row, args)
  {
    if TrueCount(ps, row, args) == 1 {
      var i := TrueCountWitness(ps, row, args);
      forall j | 0 <= j < |ps| && j != i ensures !Holds(ps[j], row, args) {
        if Holds(ps[j], row, args) {
          TwoHold(ps, row, args, if i < j then i else j, if i < j then j else i);
        }
      }
    }
    if TrueCount(ps, row, args) == 0 {
      forall j | 0 <= j < |ps| ensures !Holds(ps[j], row, args) {
        if Holds(ps[j], row, args) { OneHolds(ps, row, args, j); }
      }
    }
  }
}
