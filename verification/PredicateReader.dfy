/** Reads predicate text back. The text a branch carries to the database means, row by row, what
    the predicate it was written from means. */
module PredicateReader {
  import opened Wrappers
  import opened Text
  import opened Keyset
  import opened Predicate
  import opened PredicateText

  /** What may follow the column: a comparison with a placeholder, or a NULL test. */
  function ReadTest(column: string, s: string): (r: Option<(Atom, string)>) {
    if " = " <= s then
      match ReadPlaceholder(s[3..])
      case None => None
      case Some((p, rest)) => Some((Equals(column, p), rest))
    else if " < " <= s || " > " <= s then
      match ReadPlaceholder(s[3..])
      case None => None
      case Some((p, rest)) => Some((Beyond(column, s[1] == '<', p), rest))
    else if " IS NULL" <= s then Some((IsNull(column), s[8..]))
    else if " IS NOT NULL" <= s then Some((IsNotNull(column), s[12..]))
    else None
  }

  function ReadAtom(s: string): Option<(Atom, string)> {
    match ReadIdent(s)
    case None => None
    case Some((column, rest)) => ReadTest(column, rest)
  }

  /** Reads atoms as far as ANDs go on. */
  function ReadConjunction(s: string): Option<(Predicate, string)>
    decreases |s|
  {
    match ReadAtom(s)
    case None => None
    case Some((atom, rest)) =>
      if " AND " <= rest && |rest| <= |s| then
        match ReadConjunction(rest[5..])
        case Some((Conjunction(prefix, last), end)) => Some((Conjunction([atom] + prefix, last), end))
        case _ => None
      else Some((Conjunction([], atom), rest))
  }

  /** `(c, ...) > ($1, ...)`, from its first name on. */
  function ReadRowComparison(s: string): Option<(Predicate, string)> {
    match ReadList(ReadIdent, ", ", s)
    case None => None
    case Some((columns, s1)) =>
      if !(") < (" <= s1 || ") > (" <= s1) then None
      else
        match ReadList(ReadPlaceholder, ", ", s1[5..])
        case None => None
        case Some((parameters, s2)) =>
          if ")" <= s2 then Some((RowComparison(columns, s1[2] == '<', parameters), s2[1..])) else None
  }

  function ReadPredicate(s: string): Option<(Predicate, string)> {
    if "(" <= s then ReadRowComparison(s[1..]) else ReadConjunction(s)
  }

  // ---- Atoms ------------------------------------------------------------------------------

  /** Text a predicate can stand before: nothing, or a space (of " ORDER BY" or " AND "). */
  predicate EndsAtom(rest: string) { rest == "" || rest[0] == ' ' }

  lemma ComparisonReadsBack(column: string, op: string, atom: Atom, rest: string)
    requires EndsAtom(rest)
    requires || (op == " = " && atom.Equals?)
             || (op == " < " && atom.Beyond? && atom.desc)
             || (op == " > " && atom.Beyond? && !atom.desc)
    requires atom.column == column
    ensures ReadTest(column, op + (Placeholder(atom.parameter) + rest)) == Some((atom, rest))
  {
    var tail := Placeholder(atom.parameter) + rest;
    Dropped(op, tail);
    assert (op + tail)[1] == op[1];
    PlaceholderReadsBack(atom.parameter, rest);
  }

  lemma NullTestReadsBack(column: string, test: string, atom: Atom, rest: string)
    requires (test == " IS NULL" && atom == IsNull(column)) || (test == " IS NOT NULL" && atom == IsNotNull(column))
    ensures ReadTest(column, test + rest) == Some((atom, rest))
  {
    Dropped(test, rest);
    var s := test + rest;
    assert s[1] == 'I' && s[5] == test[5] && " IS NULL"[5] == 'U' && " IS NOT NULL"[5] == 'O';
  }

  lemma ParameterTestReadsBack(atom: Atom, rest: string)
    requires EndsAtom(rest) && (atom.Equals? || atom.Beyond?)
    ensures ReadTest(atom.column, TestSQL(atom) + rest) == Some((atom, rest))
  {
    var op := if atom.Equals? then " = " else ComparisonText(atom.desc);
    ComparisonReadsBack(atom.column, op, atom, rest);
    assert TestSQL(atom) + rest == op + (Placeholder(atom.parameter) + rest);
  }

  lemma TestReadsBack(atom: Atom, rest: string)
    requires EndsAtom(rest)
    ensures ReadTest(atom.column, TestSQL(atom) + rest) == Some((atom, rest))
  {
    if atom.IsNull? || atom.IsNotNull? {
      NullTestReadsBack(atom.column, TestSQL(atom), atom, rest);
    } else {
      ParameterTestReadsBack(atom, rest);
    }
  }

  lemma TestStartsWithSpace(atom: Atom)
    ensures TestSQL(atom) != "" && TestSQL(atom)[0] == ' '
  {
  }

  lemma AtomReadsBack(atom: Atom, rest: string)
    requires EndsAtom(rest)
    ensures ReadAtom(AtomSQL(atom) + rest) == Some((atom, rest))
  {
    TestReadsBack(atom, rest);
    TestStartsWithSpace(atom);
    IdentReadsBack(atom.column, TestSQL(atom) + rest);
    assert AtomSQL(atom) + rest == QuoteIdent(atom.column) + (TestSQL(atom) + rest);
  }

  // ---- Conjunctions -----------------------------------------------------------------------

  lemma PrefixFromTheFront(atoms: seq<Atom>)
    requires atoms != []
    ensures PrefixSQL(atoms) == AtomSQL(atoms[0]) + (" AND " + PrefixSQL(atoms[1..]))
  {
    TerminatedFromTheFront(Map(AtomSQL, atoms), " AND ");
    assert Map(AtomSQL, atoms)[1..] == Map(AtomSQL, atoms[1..]);
  }

  lemma OneMoreAtom(atom: Atom, tail: string, prefix: seq<Atom>, last: Atom, rest: string)
    requires ReadConjunction(tail) == Some((Conjunction(prefix, last), rest))
    ensures ReadConjunction(AtomSQL(atom) + (" AND " + tail)) == Some((Conjunction([atom] + prefix, last), rest))
  {
    AtomReadsBack(atom, " AND " + tail);
    Dropped(" AND ", tail);
  }

  lemma ConjunctionFromTheFront(prefix: seq<Atom>, end: string)
    requires prefix != []
    ensures PrefixSQL(prefix) + end == AtomSQL(prefix[0]) + (" AND " + (PrefixSQL(prefix[1..]) + end))
  {
    PrefixFromTheFront(prefix);
    Regroup(AtomSQL(prefix[0]), " AND ", PrefixSQL(prefix[1..]), end);
  }

  lemma {:induction false} ConjunctionReadsBack(prefix: seq<Atom>, last: Atom, rest: string)
    requires EndsAtom(rest) && !(" AND " <= rest)
    ensures ReadConjunction(PrefixSQL(prefix) + (AtomSQL(last) + rest)) == Some((Conjunction(prefix, last), rest))
  {
    var end := AtomSQL(last) + rest;
    if prefix == [] {
      assert PrefixSQL(prefix) + end == end;
      AtomReadsBack(last, rest);
    } else {
      ConjunctionFromTheFront(prefix, end);
      assert prefix == [prefix[0]] + prefix[1..];
      ConjunctionReadsBack(prefix[1..], last, rest);
      OneMoreAtom(prefix[0], PrefixSQL(prefix[1..]) + end, prefix[1..], last, rest);
    }
  }

  // ---- Row comparisons --------------------------------------------------------------------

  lemma NamesReadBack(columns: seq<string>, rest: string)
    requires columns != [] && ")" <= rest
    ensures ReadList(ReadIdent, ", ", Join(Map(QuoteIdent, columns), ", ") + rest) == Some((columns, rest))
  {
    assert ")"[0] == ')' && ", "[0] == ',';
    forall i, t: string | 0 <= i < |columns| && (", " <= t || t == rest)
      ensures ReadIdent(Map(QuoteIdent, columns)[i] + t) == Some((columns[i], t))
    {
      IdentReadsBack(columns[i], t);
    }
    ListReadsBack(ReadIdent, ", ", Map(QuoteIdent, columns), columns, rest);
  }

  lemma NumbersReadBack(positions: seq<nat>, rest: string)
    requires positions != [] && ")" <= rest
    ensures ReadList(ReadPlaceholder, ", ", Join(Map(Placeholder, positions), ", ") + rest) == Some((positions, rest))
  {
    assert ")"[0] == ')' && ", "[0] == ',';
    forall i, t: string | 0 <= i < |positions| && (", " <= t || t == rest)
      ensures ReadPlaceholder(Map(Placeholder, positions)[i] + t) == Some((positions[i], t))
    {
      PlaceholderReadsBack(positions[i], t);
    }
    ListReadsBack(ReadPlaceholder, ", ", Map(Placeholder, positions), positions, rest);
  }

  lemma RowComparisonReadsBack(columns: seq<string>, desc: bool, parameters: seq<nat>, rest: string)
    requires columns != [] && parameters != []
    ensures
      var numbers := Join(Map(Placeholder, parameters), ", ") + (")" + rest);
      var s := Join(Map(QuoteIdent, columns), ", ") + ((if desc then ") < (" else ") > (") + numbers);
      ReadRowComparison(s) == Some((RowComparison(columns, desc, parameters), rest))
  {
    var numbers := Join(Map(Placeholder, parameters), ", ") + (")" + rest);
    var op := if desc then ") < (" else ") > (";
    NamesReadBack(columns, op + numbers);
    Dropped(op, numbers);
    assert (op + numbers)[2] == op[2];
    NumbersReadBack(parameters, ")" + rest);
    Dropped(")", rest);
  }

  // ---- Predicates -------------------------------------------------------------------------

  /** A row comparison of one column is written, and read, as a plain comparison. */
  function Plain(p: Predicate): Predicate {
    match p
    case RowComparison(columns, desc, parameters) =>
      if |columns| == |parameters| == 1 then Conjunction([], Beyond(columns[0], desc, parameters[0])) else p
    case _ => p
  }

  lemma PlainMeansTheSame(p: Predicate, row: Row, args: seq<GoValue>)
    ensures Eval(Plain(p), row, args) == Eval(p, row, args)
  {
    if p.RowComparison? && |p.columns| == |p.parameters| == 1 {
      var cells, bounds := CellsOf(p.columns, row), Arguments(args, p.parameters);
      assert cells[1..] == [] && bounds[1..] == [];
      assert EvalPairs(p.desc, cells[1..], bounds[1..]) == False;
    }
  }

  predicate Complete(p: Predicate) {
    p.RowComparison? ==> p.columns != [] && |p.columns| == |p.parameters|
  }

  lemma ConjunctionStartsWithQuote(prefix: seq<Atom>, last: Atom, rest: string)
    ensures
      var s := PrefixSQL(prefix) + AtomSQL(last) + rest;
      s != "" && s[0] == '"'
  {
    if prefix != [] { PrefixFromTheFront(prefix); }
  }

  lemma ConjunctionTextReadsBack(q: Predicate, rest: string)
    requires q.Conjunction? && EndsAtom(rest) && !(" AND " <= rest)
    ensures ReadPredicate(PredicateSQL(q) + rest) == Some((q, rest))
  {
    var text := PrefixSQL(q.prefix) + (AtomSQL(q.last) + rest);
    assert PredicateSQL(q) + rest == text;
    assert !("(" <= text) by {
      ConjunctionStartsWithQuote(q.prefix, q.last, rest);
      assert "("[0] == '(';
    }
    ConjunctionReadsBack(q.prefix, q.last, rest);
  }

  lemma TupleTextReadsBack(p: Predicate, rest: string)
    requires p.RowComparison? && Complete(p) && |p.columns| > 1
    ensures ReadPredicate(PredicateSQL(p) + rest) == Some((p, rest))
  {
    var names, numbers := Join(Map(QuoteIdent, p.columns), ", "), Join(Map(Placeholder, p.parameters), ", ");
    var op := if p.desc then ") < (" else ") > (";
    assert ")" + ComparisonText(p.desc) + "(" == op;
    RowComparisonReadsBack(p.columns, p.desc, p.parameters, rest);
    var body := names + (op + (numbers + (")" + rest)));
    TupleSQLRegroups(names, ComparisonText(p.desc), op, numbers, rest);
    Dropped("(", body);
  }

  lemma TupleSQLRegroups(names: string, comparison: string, op: string, numbers: string, rest: string)
    requires ")" + comparison + "(" == op
    ensures TupleSQL(names, comparison, numbers) + rest == "(" + (names + (op + (numbers + (")" + rest))))
  {
  }

  /** Reading a predicate's text yields the predicate. */
  lemma PredicateReadsBack(p: Predicate, rest: string)
    requires Complete(p) && EndsAtom(rest) && !(" AND " <= rest)
    ensures ReadPredicate(PredicateSQL(p) + rest) == Some((Plain(p), rest))
  {
    if p.Conjunction? {
      ConjunctionTextReadsBack(p, rest);
    } else if |p.columns| == 1 {
      assert PrefixSQL([]) == "";
      assert PredicateSQL(p) == PredicateSQL(Plain(p));
      ConjunctionTextReadsBack(Plain(p), rest);
    } else {
      TupleTextReadsBack(p, rest);
    }
  }

  /** The text of a predicate, read as SQL reads it, is TRUE of the rows the predicate is TRUE of. */
  lemma TextMeansThePredicate(p: Predicate, rest: string, row: Row, args: seq<GoValue>)
    requires Complete(p) && EndsAtom(rest) && !(" AND " <= rest)
    ensures
      var read := ReadPredicate(PredicateSQL(p) + rest);
      read.Some? && read.value.1 == rest && Eval(read.value.0, row, args) == Eval(p, row, args)
  {
    PredicateReadsBack(p, rest);
    PlainMeansTheSame(p, row, args);
  }
}
