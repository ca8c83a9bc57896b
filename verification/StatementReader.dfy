/** Reads a page's statement back from its text, and takes its meaning from there: what the
    library sends to the database is text, and this is what the text asks for. */
module StatementReader {
  import opened Wrappers
  import opened Text
  import opened Keyset
  import opened Predicate
  import opened Statement
  import opened OrderText
  import opened PredicateText
  import opened PredicateReader
  import opened StatementText

  datatype Tail = Tail(orders: seq<Order>, limit: nat)

  /** Drops `lead` from the front. */
  function After(lead: string, s: string): Option<string> {
    if lead <= s then Some(s[|lead|..]) else None
  }

  /** ` ORDER BY ... LIMIT $n` */
  function ReadSuffix(s: string): Option<(Tail, string)> {
    match After(" ORDER BY ", s)
    case None => None
    case Some(s1) =>
      match ReadList(ReadOrder, ", ", s1)
      case None => None
      case Some((orders, s2)) =>
        match After(" LIMIT ", s2)
        case None => None
        case Some(s3) =>
          match ReadPlaceholder(s3)
          case None => None
          case Some((limit, rest)) => Some((Tail(orders, limit), rest))
  }

  /** A condition and the suffix after it. */
  function ReadWhere(s: string): Option<((Predicate, Tail), string)> {
    match ReadPredicate(s)
    case None => None
    case Some((p, s1)) =>
      match ReadSuffix(s1)
      case None => None
      case Some((tail, rest)) => Some(((p, tail), rest))
  }

  /** The base SQL as a subquery under its alias. */
  function Wrapped(sql: string): string { "SELECT * FROM (" + sql + ") AS pgfx_page" }

  /** One parenthesised branch over the given SELECT. */
  function ReadBranch(select: string): string -> Option<((Predicate, Tail), string)> {
    (s: string) =>
      match After("(" + select + " WHERE ", s)
      case None => None
      case Some(s1) =>
        match ReadWhere(s1)
        case None => None
        case Some((branch, s2)) =>
          match After(")", s2)
          case None => None
          case Some(rest) => Some((branch, rest))
  }

  function ReadSelect(s: string): Option<Statement> {
    match After(" WHERE FALSE", s)
    case Some(s1) =>
      (match ReadSuffix(s1)
       case Some((tail, "")) => Some(Select(Nothing, tail.orders, tail.limit))
       case _ => None)
    case None =>
      match After(" WHERE ", s)
      case Some(s1) =>
        (match ReadWhere(s1)
         case Some(((p, tail), "")) => Some(Select(Where(p), tail.orders, tail.limit))
         case _ => None)
      case None =>
        match ReadSuffix(s)
        case None => None
        case Some((tail, rest)) =>
          if rest == "" then Some(Select(Everything, tail.orders, tail.limit)) else ReadOffset(tail, rest)
  }

  function ReadOffset(tail: Tail, s: string): Option<Statement> {
    match After(" OFFSET ", s)
    case None => None
    case Some(s1) =>
      match ReadPlaceholder(s1)
      case Some((offset, "")) => Some(Numbered(tail.orders, tail.limit, offset))
      case _ => None
  }

  /** The branches of a union, which share its ORDER BY and LIMIT. */
  function ReadUnion(select: string, s: string): Option<Statement> {
    match ReadList(ReadBranch(select), " UNION ALL ", s)
    case None => None
    case Some((branches, s1)) =>
      match After(") AS pgfx_after", s1)
      case None => None
      case Some(s2) =>
        match ReadSuffix(s2)
        case Some((tail, "")) =>
          if forall i :: 0 <= i < |branches| ==> branches[i].1 == tail
          then Some(UnionAll(Map((b: (Predicate, Tail)) => b.0, branches), tail.orders, tail.limit))
          else None
        case _ => None
  }

  /** The statement a text over the base SQL asks for. */
  function ReadStatement(sql: string, text: string): Option<Statement> {
    var select := Wrapped(sql);
    if "SELECT * FROM (" + ("(" + select + " WHERE ") <= text then ReadUnion(select, text[|"SELECT * FROM ("|..])
    else
      match After(select, text)
      case None => None
      case Some(s) => ReadSelect(s)
  }

  // ---- The parts --------------------------------------------------------------------------

  predicate Renderable(orders: seq<Order>) {
    orders != [] && forall o :: o in orders ==> KnownNulls(o)
  }

  lemma LimitReadsBack(limit: nat, rest: string)
    requires rest == "" || !IsDigit(rest[0])
    ensures
      var s := " LIMIT " + Placeholder(limit) + rest;
      && After(" LIMIT ", s) == Some(Placeholder(limit) + rest)
      && ReadPlaceholder(Placeholder(limit) + rest) == Some((limit, rest))
  {
    assert " LIMIT " + Placeholder(limit) + rest == " LIMIT " + (Placeholder(limit) + rest);
    Dropped(" LIMIT ", Placeholder(limit) + rest);
    PlaceholderReadsBack(limit, rest);
  }

  lemma OrderByReadsOn(orders: seq<Order>, s: string)
    requires Renderable(orders)
    requires |s| > 1 && s[0] == ' ' && s[1] == 'L'
    ensures ReadList(ReadOrder, ", ", OrdersSQL(orders) + s) == Some((orders, s))
  {
    assert " NULLS"[1] == 'N' && ", "[0] == ',';
    OrdersReadBack(orders, s);
  }

  lemma SuffixParts(a: string, b: string, c: string, d: string, e: string)
    ensures a + b + c + d + e == a + (b + (c + d + e))
  {
  }

  lemma SuffixReadsBack(orders: seq<Order>, limit: nat, rest: string)
    requires Renderable(orders)
    requires rest == "" || !IsDigit(rest[0])
    ensures ReadSuffix(Suffix(orders, limit) + rest) == Some((Tail(orders, limit), rest))
  {
    var s2 := " LIMIT " + Placeholder(limit) + rest;
    LimitReadsBack(limit, rest);
    OrderByReadsOn(orders, s2);
    Dropped(" ORDER BY ", OrdersSQL(orders) + s2);
    SuffixParts(" ORDER BY ", OrdersSQL(orders), " LIMIT ", Placeholder(limit), rest);
  }

  lemma WhereReadsBack(p: Predicate, orders: seq<Order>, limit: nat, rest: string)
    requires Complete(p) && Renderable(orders)
    requires rest == "" || !IsDigit(rest[0])
    ensures ReadWhere(PredicateSQL(p) + (Suffix(orders, limit) + rest)) == Some(((Plain(p), Tail(orders, limit)), rest))
  {
    var s1 := Suffix(orders, limit) + rest;
    SuffixReadsBack(orders, limit, rest);
    assert s1[0] == ' ' && s1[1] == 'O' && " AND "[1] == 'A';
    PredicateReadsBack(p, s1);
  }

  lemma BranchRegroups(sql: string, condition: string, suffix: string, rest: string)
    ensures BranchSQL(sql, suffix)(condition) + rest
         == "(" + SelectSQL(sql) + " WHERE " + (condition + (suffix + (")" + rest)))
  {
    var select := SelectSQL(sql);
    assert BranchSQL(sql, suffix)(condition) == "(" + select + " WHERE " + condition + suffix + ")";
  }

  lemma BranchCloses(select: string, s1: string, branch: (Predicate, Tail), rest: string)
    requires ReadWhere(s1) == Some((branch, ")" + rest))
    ensures ReadBranch(select)("(" + select + " WHERE " + s1) == Some((branch, rest))
  {
    Dropped("(" + select + " WHERE ", s1);
    Dropped(")", rest);
  }

  lemma BranchReadsBack(sql: string, p: Predicate, orders: seq<Order>, limit: nat, rest: string)
    requires Complete(p) && Renderable(orders)
    ensures ReadBranch(SelectSQL(sql))(BranchSQL(sql, Suffix(orders, limit))(PredicateSQL(p)) + rest)
         == Some(((Plain(p), Tail(orders, limit)), rest))
  {
    var condition, suffix, branch := PredicateSQL(p), Suffix(orders, limit), (Plain(p), Tail(orders, limit));
    assert ReadWhere(condition + (suffix + (")" + rest))) == Some((branch, ")" + rest)) by {
      WhereReadsBack(p, orders, limit, ")" + rest);
    }
    BranchCloses(SelectSQL(sql), condition + (suffix + (")" + rest)), branch, rest);
    BranchRegroups(sql, condition, suffix, rest);
  }

  lemma UnionCloses(select: string, s: string, branches: seq<(Predicate, Tail)>, tail: Tail, suffix: string)
    requires ReadList(ReadBranch(select), " UNION ALL ", s) == Some((branches, ") AS pgfx_after" + suffix))
    requires ReadSuffix(suffix) == Some((tail, ""))
    requires forall i :: 0 <= i < |branches| ==> branches[i].1 == tail
    ensures ReadUnion(select, s)
            == Some(UnionAll(Map((b: (Predicate, Tail)) => b.0, branches), tail.orders, tail.limit))
  {
    Dropped(") AS pgfx_after", suffix);
  }

  function PlainBranch(tail: Tail): Predicate -> (Predicate, Tail) {
    (p: Predicate) => (Plain(p), tail)
  }

  lemma BranchesReadBack(sql: string, ps: seq<Predicate>, orders: seq<Order>, limit: nat, rest: string)
    requires Renderable(orders) && ps != [] && forall i :: 0 <= i < |ps| ==> Complete(ps[i])
    requires rest != "" && rest[0] == ')'
    ensures
      var texts := Map(BranchSQL(sql, Suffix(orders, limit)), Map(PredicateSQL, ps));
      ReadList(ReadBranch(SelectSQL(sql)), " UNION ALL ", Join(texts, " UNION ALL ") + rest)
        == Some((Map(PlainBranch(Tail(orders, limit)), ps), rest))
  {
    var texts := Map(BranchSQL(sql, Suffix(orders, limit)), Map(PredicateSQL, ps));
    var items := Map(PlainBranch(Tail(orders, limit)), ps);
    forall i, t: string | 0 <= i < |texts| && (" UNION ALL " <= t || t == rest)
      ensures ReadBranch(SelectSQL(sql))(texts[i] + t) == Some((items[i], t))
    {
      BranchReadsBack(sql, ps[i], orders, limit, t);
    }
    assert " UNION ALL "[0] == ' ';
    ListReadsBack(ReadBranch(SelectSQL(sql)), " UNION ALL ", texts, items, rest);
  }

  /** A union's text reads back as the union of its plain predicates. */
  lemma UnionReadsBack(sql: string, ps: seq<Predicate>, orders: seq<Order>, limit: nat)
    requires Renderable(orders) && ps != [] && forall i :: 0 <= i < |ps| ==> Complete(ps[i])
    ensures
      var branches := Map(BranchSQL(sql, Suffix(orders, limit)), Map(PredicateSQL, ps));
      ReadUnion(SelectSQL(sql), Join(branches, " UNION ALL ") + (") AS pgfx_after" + Suffix(orders, limit)))
        == Some(UnionAll(Map(Plain, ps), orders, limit))
  {
    var suffix, tail := Suffix(orders, limit), Tail(orders, limit);
    var texts := Map(BranchSQL(sql, suffix), Map(PredicateSQL, ps));
    var items := Map(PlainBranch(tail), ps);
    BranchesReadBack(sql, ps, orders, limit, ") AS pgfx_after" + suffix);
    assert ReadSuffix(suffix) == Some((tail, "")) by {
      SuffixReadsBack(orders, limit, "");
      assert suffix + "" == suffix;
    }
    UnionCloses(SelectSQL(sql), Join(texts, " UNION ALL ") + (") AS pgfx_after" + suffix), items, tail, suffix);
    assert Map((b: (Predicate, Tail)) => b.0, items) == Map(Plain, ps);
  }

  lemma SelectEverything(suffix: string, tail: Tail)
    requires ReadSuffix(suffix) == Some((tail, "")) && |suffix| > 1 && suffix[1] == 'O'
    ensures ReadSelect(suffix) == Some(Select(Everything, tail.orders, tail.limit))
  {
    assert " WHERE FALSE"[1] == 'W' && " WHERE "[1] == 'W';
  }

  lemma SelectNothing(suffix: string, tail: Tail)
    requires ReadSuffix(suffix) == Some((tail, ""))
    ensures ReadSelect(" WHERE FALSE" + suffix) == Some(Select(Nothing, tail.orders, tail.limit))
  {
    Dropped(" WHERE FALSE", suffix);
  }

  lemma SelectWhere(s: string, p: Predicate, tail: Tail)
    requires ReadWhere(s) == Some(((p, tail), "")) && s != "" && s[0] != 'F'
    ensures ReadSelect(" WHERE " + s) == Some(Select(Where(p), tail.orders, tail.limit))
  {
    Dropped(" WHERE ", s);
    CharAfter(" WHERE ", s, 0);
    assert " WHERE FALSE"[7] == 'F';
  }

  lemma SelectReadsBack(filter: Filter, orders: seq<Order>, limit: nat)
    requires Renderable(orders) && (filter.Where? ==> Complete(filter.condition))
    ensures ReadSelect(FilterSQL(filter) + Suffix(orders, limit))
         == Some(Select(PlainFilter(filter), orders, limit))
  {
    var suffix, tail := Suffix(orders, limit), Tail(orders, limit);
    SuffixReadsBack(orders, limit, "");
    assert suffix + "" == suffix;
    match filter
    case Everything =>
      assert "" + suffix == suffix;
      SelectEverything(suffix, tail);
    case Nothing =>
      SelectNothing(suffix, tail);
    case Where(p) =>
      WhereSelectReadsBack(p, orders, limit);
  }

  lemma WhereSelectReadsBack(p: Predicate, orders: seq<Order>, limit: nat)
    requires Renderable(orders) && Complete(p)
    ensures ReadSelect(" WHERE " + PredicateSQL(p) + Suffix(orders, limit))
         == Some(Select(Where(Plain(p)), orders, limit))
  {
    var suffix := Suffix(orders, limit);
    assert suffix + "" == suffix;
    WhereReadsBack(p, orders, limit, "");
    PredicateStartsOff(p, suffix);
    SelectWhere(PredicateSQL(p) + suffix, Plain(p), Tail(orders, limit));
    assert " WHERE " + PredicateSQL(p) + suffix == " WHERE " + (PredicateSQL(p) + suffix);
  }

  /** A predicate starts with a quote or a parenthesis. */
  lemma PredicateStartsOff(p: Predicate, rest: string)
    requires Complete(p)
    ensures
      var s := PredicateSQL(p) + rest;
      s != "" && (s[0] == '"' || s[0] == '(')
  {
    if p.Conjunction? { ConjunctionStartsWithQuote(p.prefix, p.last, rest); }
  }

  function PlainFilter(filter: Filter): Filter {
    if filter.Where? then Where(Plain(filter.condition)) else filter
  }

  function PlainStatement(st: Statement): Statement {
    match st
    case Select(filter, orders, limit) => Select(PlainFilter(filter), orders, limit)
    case UnionAll(ps, orders, limit) => UnionAll(Map(Plain, ps), orders, limit)
    case Numbered(_, _, _) => st
  }

  predicate Writable(st: Statement) {
    && Renderable(st.orders)
    && (st.Select? && st.filter.Where? ==> Complete(st.filter.condition))
    && (st.UnionAll? ==> st.branches != [] && forall i :: 0 <= i < |st.branches| ==> Complete(st.branches[i]))
  }

  /** Whatever the base SQL is, a plain SELECT cannot be taken for a union: they differ in the
      character that is as far into the text as the base SQL is long, and 31 more. */
  lemma SelectIsNoUnion(sql: string, tail: string)
    requires |tail| > 2 && tail[2] != ')'
    ensures !("SELECT * FROM (" + ("(" + SelectSQL(sql) + " WHERE ") <= SelectSQL(sql) + tail)
  {
    var union, head := "SELECT * FROM ((SELECT * FROM (" + sql, SelectSQL(sql);
    var end := ") AS pgfx_page WHERE ";
    assert "SELECT * FROM (" + ("(" + SelectSQL(sql) + " WHERE ") == union + end;
    assert |union| == |head| + 2;
    CharAfter(union, end, 0);
    CharAfter(head, tail, 2);
  }

  lemma TailOfSelect(filter: Filter, orders: seq<Order>, limit: nat)
    ensures
      var tail := FilterSQL(filter) + Suffix(orders, limit);
      |tail| > 2 && tail[2] != ')'
  {
    var tail := FilterSQL(filter) + Suffix(orders, limit);
    match filter
    case Everything => assert tail == Suffix(orders, limit) && tail[2] == 'R';
    case Nothing => assert tail[2] == 'H';
    case Where(p) => assert tail[2] == 'H';
  }

  /** The text of a statement reads back as the statement, single-column row comparisons made
      plain. */
  lemma StatementReadsBack(sql: string, st: Statement)
    requires Writable(st)
    ensures ReadStatement(sql, StatementSQL(sql, st)) == Some(PlainStatement(st))
  {
    match st
    case Select(filter, orders, limit) =>
      var tail := FilterSQL(filter) + Suffix(orders, limit);
      TailOfSelect(filter, orders, limit);
      SelectIsNoUnion(sql, tail);
      Dropped(SelectSQL(sql), tail);
      SelectReadsBack(filter, orders, limit);
    case UnionAll(ps, orders, limit) =>
      UnionReadsBack(sql, ps, orders, limit);
      UnionIsUnion(sql, Map(PredicateSQL, ps), Suffix(orders, limit));
    case Numbered(orders, limit, offset) =>
      var tail := Suffix(orders, limit) + (" OFFSET " + Placeholder(offset));
      assert tail[2] == 'R';
      SelectIsNoUnion(sql, tail);
      Dropped(SelectSQL(sql), tail);
      NumberedReadsBack(orders, limit, offset);
  }

  lemma OffsetReadsBack(tail: Tail, offset: nat)
    ensures ReadOffset(tail, " OFFSET " + Placeholder(offset)) == Some(Numbered(tail.orders, tail.limit, offset))
  {
    Dropped(" OFFSET ", Placeholder(offset));
    PlaceholderReadsBack(offset, "");
    assert Placeholder(offset) + "" == Placeholder(offset);
  }

  lemma SelectNumbered(s: string, tail: Tail, rest: string)
    requires ReadSuffix(s) == Some((tail, rest)) && rest != "" && |s| > 1 && s[1] == 'O'
    ensures ReadSelect(s) == ReadOffset(tail, rest)
  {
    assert " WHERE FALSE"[1] == 'W' && " WHERE "[1] == 'W';
  }

  lemma NumberedReadsBack(orders: seq<Order>, limit: nat, offset: nat)
    requires Renderable(orders)
    ensures ReadSelect(Suffix(orders, limit) + (" OFFSET " + Placeholder(offset)))
            == Some(Numbered(orders, limit, offset))
  {
    var rest := " OFFSET " + Placeholder(offset);
    assert (Suffix(orders, limit) + rest)[1] == 'O';
    SuffixReadsBack(orders, limit, rest);
    OffsetReadsBack(Tail(orders, limit), offset);
    SelectNumbered(Suffix(orders, limit) + rest, Tail(orders, limit), rest);
  }

  lemma UnionIsUnion(sql: string, conditions: seq<string>, suffix: string)
    requires conditions != []
    ensures
      var text := UnionSQL(Map(BranchSQL(sql, suffix), conditions), suffix);
      && "SELECT * FROM (" + ("(" + SelectSQL(sql) + " WHERE ") <= text
      && text[|"SELECT * FROM ("|..]
        == Join(Map(BranchSQL(sql, suffix), conditions), " UNION ALL ") + (") AS pgfx_after" + suffix)
  {
    var branches := Map(BranchSQL(sql, suffix), conditions);
    var lead, rest := "(" + SelectSQL(sql) + " WHERE ", conditions[0] + suffix + ")";
    assert branches[0] == lead + rest by {
      Associate("(" + SelectSQL(sql) + " WHERE ", conditions[0], suffix, ")");
    }
    if |branches| > 1 {
      JoinFromTheFront(branches, " UNION ALL ");
    }
    var joined, end := Join(branches, " UNION ALL "), ") AS pgfx_after" + suffix;
    assert lead <= joined;
    assert UnionSQL(branches, suffix) == "SELECT * FROM (" + (joined + end);
  }

  // ---- The meaning of the text ------------------------------------------------------------

  /** `out` is a result the database may return for this text over the base rows. */
  ghost predicate TextOutcome(sql: string, text: string, base: seq<Row>, args: seq<GoValue>, out: seq<Row>) {
    var st := ReadStatement(sql, text);
    st.Some? && Outcome(st.value, base, args, out)
  }

  lemma PlainBranchOutcomes(ps: seq<Predicate>, orders: seq<Order>, k: nat, base: seq<Row>, args: seq<GoValue>,
                            parts: seq<seq<Row>>)
    ensures BranchOutcomes(Map(Plain, ps), orders, k, base, args, parts) <==>
            BranchOutcomes(ps, orders, k, base, args, parts)
  {
    forall i | 0 <= i < |ps|
      ensures Keep(base, Passes(Where(Map(Plain, ps)[i]), args)) == Keep(base, Passes(Where(ps[i]), args))
    {
      PlainKeeps(Where(ps[i]), base, args);
    }
  }

  lemma PlainKeeps(filter: Filter, base: seq<Row>, args: seq<GoValue>)
    ensures Keep(base, Passes(PlainFilter(filter), args)) == Keep(base, Passes(filter, args))
  {
    forall r ensures Passes(PlainFilter(filter), args)(r) == Passes(filter, args)(r) {
      if filter.Where? { PlainMeansTheSame(filter.condition, r, args); }
    }
    KeepAlike(base, Passes(PlainFilter(filter), args), Passes(filter, args));
  }

  /** The text asks for exactly what the statement it was written from asks for. */
  lemma TextMeansTheStatement(sql: string, st: Statement, base: seq<Row>, args: seq<GoValue>, out: seq<Row>)
    requires Writable(st)
    ensures TextOutcome(sql, StatementSQL(sql, st), base, args, out) <==> Outcome(st, base, args, out)
  {
    StatementReadsBack(sql, st);
    match st
    case Select(filter, orders, limit) =>
      PlainKeeps(filter, base, args);
    case UnionAll(ps, orders, limit) =>
      forall parts
        ensures BranchOutcomes(Map(Plain, ps), orders, LimitOf(args, limit), base, args, parts)
           <==> BranchOutcomes(ps, orders, LimitOf(args, limit), base, args, parts)
      {
        PlainBranchOutcomes(ps, orders, LimitOf(args, limit), base, args, parts);
      }
    case Numbered(_, _, _) =>
  }
}
