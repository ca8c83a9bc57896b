/** The statements as text, and the one allocation they are written in (afterSQL, page/query.go). */
module StatementText {
  import opened Text
  import opened Keyset
  import opened Statement
  import opened OrderText
  import opened PredicateText
  import Seek

  function SelectSQL(sql: string): string { "SELECT * FROM (" + sql + ") AS pgfx_page" }

  function Suffix(orders: seq<Order>, limit: nat): string {
    " ORDER BY " + OrdersSQL(orders) + " LIMIT " + Placeholder(limit)
  }

  function BranchSQL(sql: string, suffix: string): string -> string {
    (condition: string) => "(" + SelectSQL(sql) + " WHERE " + condition + suffix + ")"
  }

  function UnionSQL(branches: seq<string>, suffix: string): string {
    "SELECT * FROM (" + Join(branches, " UNION ALL ") + ") AS pgfx_after" + suffix
  }

  function FilterSQL(filter: Filter): string {
    match filter
    case Everything => ""
    case Nothing => " WHERE FALSE"
    case Where(p) => " WHERE " + PredicateSQL(p)
  }

  function StatementSQL(sql: string, st: Statement): string {
    var suffix := Suffix(st.orders, st.limit);
    match st
    case Select(filter, _, _) => SelectSQL(sql) + (FilterSQL(filter) + suffix)
    case UnionAll(ps, _, _) => UnionSQL(Map(BranchSQL(sql, suffix), Map(PredicateSQL, ps)), suffix)
    case Numbered(_, _, offset) => SelectSQL(sql) + (suffix + (" OFFSET " + Placeholder(offset)))
  }

  // ---- Lengths ----------------------------------------------------------------------------

  function Total(parts: seq<string>): nat {
    if parts == [] then 0 else Total(parts[..|parts| - 1]) + |parts[|parts| - 1]|
  }

  lemma {:induction false} JoinLength(parts: seq<string>)
    ensures |Join(parts, " UNION ALL ")| == Total(parts) + if parts == [] then 0 else 11 * (|parts| - 1)
  {
    if parts == [] {
    } else if |parts| == 1 {
      assert parts[..0] == [];
    } else {
      JoinLength(parts[..|parts| - 1]);
    }
  }

  lemma {:induction false} TotalIsMonotone(parts: seq<string>, n: nat)
    requires n <= |parts|
    ensures Total(parts[..n]) <= Total(parts)
  {
    if n == |parts| {
      assert parts[..n] == parts;
    } else {
      TotalIsMonotone(parts[..|parts| - 1], n);
      assert parts[..|parts| - 1][..n] == parts[..n];
    }
  }

  // ---- Writing ----------------------------------------------------------------------------

  /** The size asked of the builder for these branches. */
  method UnionSize(select: string, predicates: seq<string>, suffix: string, ghost branches: seq<string>)
    returns (size: nat)
    requires |predicates| == |branches| > 0
    requires forall i :: 0 <= i < |predicates| ==>
               |branches[i]| == |select| + 7 + |predicates[i]| + |suffix| + 2
    ensures size == |UnionSQL(branches, suffix)|
  {
    size := |"SELECT * FROM () AS pgfx_after"| + |suffix| + (|predicates| - 1) * |" UNION ALL "|;
    ghost var fixed := size;
    for i := 0 to |predicates|
      invariant size == fixed + Total(branches[..i])
    {
      size := size + |select| + |" WHERE "| + |predicates[i]| + |suffix| + 2;
      assert branches[..i + 1][..i] == branches[..i];
    }
    assert branches[..|predicates|] == branches;
    JoinLength(branches);
  }

  method WriteBranch(b: Builder, sql: string, condition: string, suffix: string, ghost branch: string)
    requires branch == BranchSQL(sql, suffix)(condition)
    requires b.Valid() && |b.text| + |branch| <= b.capacity
    modifies b
    ensures b.Valid() && b.text == old(b.text) + branch
    ensures b.capacity == old(b.capacity) && b.growths == old(b.growths)
  {
    b.WriteString("(");
    b.WriteString(SelectSQL(sql));
    b.WriteString(" WHERE ");
    b.WriteString(condition);
    b.WriteString(suffix);
    b.WriteString(")");
  }

  /** What is written after i branches leaves room for the rest. */
  lemma RoomIsLeft(branches: seq<string>, i: nat)
    requires i <= |branches|
    ensures |Join(branches[..i], " UNION ALL ")| <= |Join(branches, " UNION ALL ")|
  {
    JoinLength(branches);
    JoinLength(branches[..i]);
    TotalIsMonotone(branches, i);
  }

  method WriteBranches(b: Builder, sql: string, predicates: seq<string>, suffix: string, ghost branches: seq<string>)
    requires branches == Map(BranchSQL(sql, suffix), predicates)
    requires b.Valid() && |b.text| + |Join(branches, " UNION ALL ")| <= b.capacity
    modifies b
    ensures b.Valid() && b.text == old(b.text) + Join(branches, " UNION ALL ")
    ensures b.capacity == old(b.capacity) && b.growths == old(b.growths)
  {
    for i := 0 to |predicates|
      invariant b.Valid() && b.capacity == old(b.capacity) && b.growths == old(b.growths)
      invariant b.text == old(b.text) + Join(branches[..i], " UNION ALL ")
    {
      JoinNext(branches, " UNION ALL ", i);
      RoomIsLeft(branches, i + 1);
      ghost var branch, separator := branches[i], if i > 0 then " UNION ALL " else "";
      Associate(old(b.text), Join(branches[..i], " UNION ALL "), separator, branch);
      if i > 0 {
        b.WriteString(" UNION ALL ");
      }
      WriteBranch(b, sql, predicates[i], suffix, branch);
      assert b.text == old(b.text) + Join(branches[..i], " UNION ALL ") + separator + branch;
    }
    assert branches[..|predicates|] == branches;
  }

  /** The union is written in exactly the buffer asked for: one allocation, filled to the end. */
  method WriteUnion(b: Builder, sql: string, predicates: seq<string>, suffix: string)
    requires b.Valid() && b.text == "" && b.capacity == 0 && b.growths == 0
    requires predicates != []
    modifies b
    ensures b.Valid() && b.text == UnionSQL(Map(BranchSQL(sql, suffix), predicates), suffix)
    ensures b.growths == 1 && b.capacity == |b.text|
  {
    ghost var branches := Map(BranchSQL(sql, suffix), predicates);
    var size := UnionSize(SelectSQL(sql), predicates, suffix, branches);
    b.Grow(size);
    b.WriteString("SELECT * FROM (");
    WriteBranches(b, sql, predicates, suffix, branches);
    b.WriteString(") AS pgfx_after");
    b.WriteString(suffix);
  }

  /** The text written is that of the statement the specification gives. */
  method AfterSQL(sql: string, orders: seq<Order>, keys: seq<Seek.CursorKey>, limitPosition: nat) returns (text: string)
    ensures text == StatementSQL(sql, AfterStatement(orders, keys, limitPosition))
  {
    var orderBy := RenderOrders(orders);
    var suffix := " ORDER BY " + orderBy + " LIMIT " + Placeholder(limitPosition);
    if keys == [] {
      return SelectSQL(sql) + ("" + suffix);
    }
    var predicates := AfterPredicates(keys);
    if |predicates| == 0 {
      return SelectSQL(sql) + (" WHERE FALSE" + suffix);
    }
    if |predicates| == 1 {
      return SelectSQL(sql) + (" WHERE " + predicates[0] + suffix);
    }
    var b := new Builder();
    WriteUnion(b, sql, predicates, suffix);
    text := b.text;
  }
}
