/** The two sorters of the viewers put the same rows in the same order. */
module SortersAgree {
  import opened StableSort
  import TableSorter
  import TdxSort

  /** A table whose first column holds the rows' numeric keys. */
  ghost predicate KeysInFirstColumn(t: TableSorter.Table, rows: seq<TdxSort.Row>) {
    && |t| == |rows|
    && forall i :: 0 <= i < |rows| ==> TableSorter.CellAt(t, i, 0) == TableSorter.Number(TdxSort.Key(rows[i]) as real)
  }

  /** The rows the table sorter shows for its index sequence. */
  function Shown(indexes: seq<int>, rows: seq<TdxSort.Row>): seq<TdxSort.Row> {
    View(indexes, (i: int) => if 0 <= i < |rows| then rows[i] else [])
  }

  lemma FirstColumnOrder(t: TableSorter.Table, rows: seq<TdxSort.Row>, x: int, y: int)
    requires KeysInFirstColumn(t, rows) && 0 <= x < |rows| && 0 <= y < |rows|
    ensures TableSorter.CompareRows(t, [0], true, x, y) <= 0 <==> TdxSort.Key(rows[x]) <= TdxSort.Key(rows[y])
  {
  }

  /** Clicking on the first column of the table shows the rows exactly as the log viewer's bubble sort leaves them. */
  lemma BubbleAndShuttleAgree(t: TableSorter.Table, rows: seq<TdxSort.Row>)
    requires TableSorter.WellTyped(t) && KeysInFirstColumn(t, rows)
    ensures Shown(StableSorted(seq(|t|, i => i), TableSorter.RowOrder(t, [0], true)), rows) == StableSorted(rows, TdxSort.KeyOrder())
  {
    var le := TableSorter.RowOrder(t, [0], true);
    var f := (i: int) => if 0 <= i < |rows| then rows[i] else [];
    var all := seq(|t|, i => i);
    TableSorter.RowOrderIsPreorder(t, [0], true, le);
    forall x, y | x in all && y in all
      ensures le(x, y) <==> TdxSort.KeyOrder()(f(x), f(y))
    {
      FirstColumnOrder(t, rows, x, y);
    }
    SortCommutes(all, f, le, TdxSort.KeyOrder());
    assert View(all, f) == rows;
  }
}
