/** The predicates as text: the loops that write them (afterPredicates and tuplePredicate,
    page/query.go). */
module PredicateText {
  import opened Text
  import opened Keyset
  import opened Predicate
  import Seek
  type CursorKey = Seek.CursorKey

  function ComparisonText(desc: bool): string { if desc then " < " else " > " }

  function TestSQL(atom: Atom): string {
    match atom
    case Equals(_, p) => " = " + Placeholder(p)
    case Beyond(_, desc, p) => ComparisonText(desc) + Placeholder(p)
    case IsNull(_) => " IS NULL"
    case IsNotNull(_) => " IS NOT NULL"
  }

  function AtomSQL(atom: Atom): string {
    QuoteIdent(atom.column) + TestSQL(atom)
  }

  function PrefixSQL(atoms: seq<Atom>): string {
    Terminated(Map(AtomSQL, atoms), " AND ")
  }

  function TupleSQL(columns: string, comparison: string, parameters: string): string {
    "(" + columns + (")" + comparison + "(") + parameters + ")"
  }

  function PredicateSQL(p: Predicate): string {
    match p
    case Conjunction(prefix, last) => PrefixSQL(prefix) + AtomSQL(last)
    case RowComparison(columns, desc, parameters) =>
      if |columns| == |parameters| == 1
      then QuoteIdent(columns[0]) + (ComparisonText(desc) + Placeholder(parameters[0]))
      else
        var names, numbers := Join(Map(QuoteIdent, columns), ", "), Join(Map(Placeholder, parameters), ", ");
        TupleSQL(names, ComparisonText(desc), numbers)
  }

  // ---- Writing ----------------------------------------------------------------------------

  /** The parameter text of a key, empty for NULL. */
  function Parameter(key: CursorKey): string {
    if key.position.None? then "" else Placeholder(key.position.value)
  }

  function ColumnText(key: CursorKey): string { QuoteIdent(key.order.column) }

  method WriteColumns(keys: seq<CursorKey>, b: Builder)
    requires b.Valid()
    modifies b
    ensures b.Valid()
    ensures b.text == old(b.text) + Join(Map(ColumnText, keys), ", ")
  {
    ghost var texts := Map(ColumnText, keys);
    for i := 0 to |keys|
      invariant b.Valid() && b.text == old(b.text) + Join(texts[..i], ", ")
    {
      WriteNext(b, i, QuoteIdent(keys[i].order.column), old(b.text), texts);
    }
    assert texts[..|keys|] == texts;
  }

  method WriteParameters(keys: seq<CursorKey>, b: Builder)
    requires b.Valid()
    modifies b
    ensures b.Valid()
    ensures b.text == old(b.text) + Join(Map(Parameter, keys), ", ")
  {
    ghost var texts := Map(Parameter, keys);
    for i := 0 to |keys|
      invariant b.Valid() && b.text == old(b.text) + Join(texts[..i], ", ")
    {
      WriteNext(b, i, Parameter(keys[i]), old(b.text), texts);
    }
    assert texts[..|keys|] == texts;
  }

  lemma TupleText(keys: seq<CursorKey>)
    requires |keys| > 1 && Seek.Uniform(keys)
    ensures PredicateSQL(Seek.TuplePredicate(keys))
         == TupleSQL(Join(Map(ColumnText, keys), ", "), ComparisonText(keys[0].order.desc),
                     Join(Map(Parameter, keys), ", "))
  {
    var p := Seek.TuplePredicate(keys);
    assert Map(ColumnText, keys) == Map(QuoteIdent, p.columns);
    assert Map(Parameter, keys) == Map(Placeholder, p.parameters);
  }

  method WriteOperator(comparison: string, b: Builder)
    requires b.Valid()
    modifies b
    ensures b.Valid() && b.text == old(b.text) + (")" + comparison + "(")
  {
    b.WriteString(")");
    b.WriteString(comparison);
    b.WriteString("(");
  }

  method WriteTuple(keys: seq<CursorKey>, b: Builder)
    requires keys != [] && b.Valid() && b.text == ""
    modifies b
    ensures b.text
         == TupleSQL(Join(Map(ColumnText, keys), ", "), ComparisonText(keys[0].order.desc),
                     Join(Map(Parameter, keys), ", "))
  {
    b.WriteString("(");
    WriteColumns(keys, b);
    WriteOperator(ComparisonText(keys[0].order.desc), b);
    WriteParameters(keys, b);
    b.WriteString(")");
  }

  method TuplePredicate(keys: seq<CursorKey>) returns (sql: string)
    requires keys != [] && Seek.Uniform(keys)
    ensures sql == PredicateSQL(Seek.TuplePredicate(keys))
  {
    if |keys| == 1 {
      return QuoteIdent(keys[0].order.column) + (ComparisonText(keys[0].order.desc) + Parameter(keys[0]));
    }
    var b := new Builder();
    WriteTuple(keys, b);
    TupleText(keys);
    sql := b.text;
  }

  lemma NextPrefix(keys: seq<CursorKey>, i: nat)
    requires i < |keys|
    ensures PrefixSQL(Seek.Prefix(keys[..i + 1]))
         == PrefixSQL(Seek.Prefix(keys[..i])) + (AtomSQL(Seek.Agreement(keys[i])) + " AND ")
  {
    var atoms := Seek.Prefix(keys[..i + 1]);
    MapOfTake(AtomSQL, atoms, i);
    assert atoms[..i] == Seek.Prefix(keys[..i]);
  }

  function Prefixed(prefix: string): Atom -> string {
    (atom: Atom) => prefix + AtomSQL(atom)
  }

  lemma BranchesShareThePrefix(keys: seq<CursorKey>, tuple: bool, i: nat)
    requires i < |keys|
    ensures Map(PredicateSQL, Seek.BranchesAt(keys, tuple, i))
         == Map(Prefixed(PrefixSQL(Seek.Prefix(keys[..i]))), Seek.Deciders(keys[i], tuple))
  {
  }

  /** The predicates one key adds. */
  method BranchTexts(key: CursorKey, tuple: bool, prefix: string) returns (texts: seq<string>)
    ensures texts == Map(Prefixed(prefix), Seek.Deciders(key, tuple))
  {
    var column := key.order.column;
    texts := [];
    match key.position {
      case None =>
        if Seek.NullsGoFirst(key.order) {
          texts := texts + [prefix + AtomSQL(IsNotNull(column))];
        }
      case Some(p) =>
        if !tuple {
          texts := texts + [prefix + AtomSQL(Beyond(column, key.order.desc, p))];
        }
        if !Seek.NullsGoFirst(key.order) {
          texts := texts + [prefix + AtomSQL(IsNull(column))];
        }
    }
  }

  method SameDirection(keys: seq<CursorKey>) returns (tuple: bool)
    requires keys != []
    ensures tuple == Seek.Uniform(keys)
  {
    tuple := true;
    for i := 0 to |keys|
      invariant tuple
      invariant forall j :: 0 <= j < i ==> keys[j].order.desc == keys[0].order.desc && keys[j].position.Some?
    {
      if keys[i].order.desc != keys[0].order.desc || Parameter(keys[i]) == "" {
        return false;
      }
    }
  }

  lemma NextBranches(keys: seq<CursorKey>, tuple: bool, i: nat, head: seq<Predicate>)
    requires i < |keys|
    ensures Map(PredicateSQL, head + Seek.Branches(keys, tuple, i + 1))
         == Map(PredicateSQL, head + Seek.Branches(keys, tuple, i)) + Map(PredicateSQL, Seek.BranchesAt(keys, tuple, i))
  {
    var before, at := Seek.Branches(keys, tuple, i), Seek.BranchesAt(keys, tuple, i);
    assert head + Seek.Branches(keys, tuple, i + 1) == (head + before) + at;
    MapOfConcat(PredicateSQL, head + before, at);
  }

  /** The predicate texts are those of the specification, in its order. */
  method AfterPredicates(keys: seq<CursorKey>) returns (predicates: seq<string>)
    requires keys != []
    ensures predicates == Map(PredicateSQL, Seek.AfterPredicates(keys))
  {
    var tuple := SameDirection(keys);
    predicates := [];
    ghost var head := if tuple then [Seek.TuplePredicate(keys)] else [];
    if tuple {
      var text := TuplePredicate(keys);
      predicates := [text];
    }
    assert predicates == Map(PredicateSQL, head);
    assert head + [] == head;
    var prefix := "";
    for i := 0 to |keys|
      invariant predicates == Map(PredicateSQL, head + Seek.Branches(keys, tuple, i))
      invariant prefix == PrefixSQL(Seek.Prefix(keys[..i]))
    {
      NextBranches(keys, tuple, i, head);
      BranchesShareThePrefix(keys, tuple, i);
      var texts := BranchTexts(keys[i], tuple, prefix);
      predicates := predicates + texts;
      NextPrefix(keys, i);
      prefix := prefix + (AtomSQL(Seek.Agreement(keys[i])) + " AND ");
    }
  }
}
