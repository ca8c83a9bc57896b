/** Windows of a sorted result: what LIMIT and OFFSET pages are, and how they tile. */
module Windows {
  import opened Keyset
  import opened Statement

  datatype PageRows = PageRows(rows: seq<Row>, more: bool)

  /** The page's rows, and whether there is a row past them. */
  function Split(rows: seq<Row>, limit: nat): PageRows {
    PageRows(Take(rows, limit), |rows| > limit)
  }

  lemma WindowLength(orders: seq<Order>, offset: nat, k: nat, base: seq<Row>, out: seq<Row>)
    requires OrderedWindow(orders, offset, k, base, out)
    ensures |out| == var left := if offset <= |base| then |base| - offset else 0; if left < k then left else k
  {
    var all :| Ordered(orders, base, all) && out == Take(Drop(all, offset), k);
    assert |all| == |multiset(all)| == |multiset(base)| == |base|;
  }

  /** Whichever sorting the window was cut from, its rows and the lookahead row tell whether more
      follow, and a non-empty window with none after it tells the size of the whole. */
  lemma SplitWindow(orders: seq<Order>, offset: nat, limit: nat, base: seq<Row>, out: seq<Row>)
    requires OrderedWindow(orders, offset, limit + 1, base, out)
    ensures OrderedWindow(orders, offset, limit, base, Take(out, limit))
    ensures |out| > limit <==> |base| - offset > limit
    ensures out != [] && |out| <= limit ==> |base| == offset + |out|
    ensures |base| > offset ==> out != []
  {
    WindowLength(orders, offset, limit + 1, base, out);
    var all :| Ordered(orders, base, all) && out == Take(Drop(all, offset), limit + 1);
    TakeOfTake(Drop(all, offset), limit);
  }

  lemma TakeOfTake(rows: seq<Row>, limit: nat)
    ensures Take(Take(rows, limit + 1), limit) == Take(rows, limit)
  {
  }

  lemma SplitOfSorted(all: seq<Row>, offset: nat, limit: nat)
    requires limit > 0
    ensures Split(Take(Drop(all, offset), limit + 1), limit)
         == PageRows(Take(Drop(all, offset), limit), Take(Drop(all, offset + limit), limit) != [])
  {
    TakeOfTake(Drop(all, offset), limit);
  }

  lemma WindowIsOfTheSorted(orders: seq<Order>, offset: nat, limit: nat, base: seq<Row>, all: seq<Row>, out: seq<Row>)
    requires Distinguished(orders, multiset(base)) && Ordered(orders, base, all)
    requires OrderedWindow(orders, offset, limit + 1, base, out) && limit > 0
    ensures Split(out, limit) == PageRows(Take(Drop(all, offset), limit), Take(Drop(all, offset + limit), limit) != [])
  {
    var sorted :| Ordered(orders, base, sorted) && out == Take(Drop(sorted, offset), limit + 1);
    SortedIsUnique(orders, all, sorted);
    SplitOfSorted(all, offset, limit);
  }

  lemma NextRowsExtend(all: seq<Row>, size: nat, rows: seq<Row>, next: seq<Row>)
    requires rows <= all && next == Take(Drop(all, |rows|), size)
    ensures rows + next <= all
    ensures if |all| - |rows| > size then |rows + next| == |rows| + size else rows + next == all
  {
    assert all == rows + all[|rows|..];
  }

  // ---- Pages tile the result --------------------------------------------------------------

  /** The rows of page `number` of a sorted result. */
  function Window(all: seq<Row>, size: nat, number: nat): seq<Row>
    requires number > 0
  {
    Take(Drop(all, (number - 1) * size), size)
  }

  lemma WindowAt(all: seq<Row>, size: nat, number: nat, offset: nat)
    requires number > 0 && offset == (number - 1) * size
    ensures Window(all, size, number) == Take(Drop(all, offset), size)
    ensures Window(all, size, number + 1) == Take(Drop(all, offset + size), size)
  {
    assert number * size == offset + size;
  }

  function FirstPages(all: seq<Row>, size: nat, n: nat): seq<Row> {
    if n == 0 then [] else FirstPages(all, size, n - 1) + Window(all, size, n)
  }

  lemma TakeThenDrop(all: seq<Row>, offset: nat, size: nat)
    ensures Take(all, offset) + Take(Drop(all, offset), size) == Take(all, offset + size)
  {
  }

  /** The first n pages put together are the first n * size rows. */
  lemma {:induction false} PagesTile(all: seq<Row>, size: nat, n: nat)
    ensures FirstPages(all, size, n) == Take(all, n * size)
  {
    if n == 0 {
      assert Take(all, 0 * size) == [];
    } else {
      PagesTile(all, size, n - 1);
      var offset := (n - 1) * size;
      assert n * size == offset + size;
      TakeThenDrop(all, offset, size);
    }
  }

  /** Enough pages put together are the whole result. */
  lemma EnoughPagesAreAll(all: seq<Row>, size: nat, n: nat)
    requires n * size >= |all|
    ensures FirstPages(all, size, n) == all
  {
    PagesTile(all, size, n);
  }
}
