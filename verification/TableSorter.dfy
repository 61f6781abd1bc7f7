/** The sorting table model (src/viewer/TableSorter.java): cell comparison, the shuttle sort and sorting by a column. */
module TableSorter {
  import opened StableSort

  // ---------- cells ----------

  /** A cell value; a value of any other class is compared by its text. */
  datatype Cell = Null | Number(n: real) | Date(ms: int) | Text(s: string) | Flag(b: bool) {
    predicate SameType(c: Cell) {
      || (Number? && c.Number?) || (Date? && c.Date?) || (Text? && c.Text?) || (Flag? && c.Flag?)
    }
  }

  function Sign(less: bool, greater: bool): int { if less then -1 else if greater then 1 else 0 }

  /** The sign of the lexicographic comparison of two strings. */
  function CompareText(a: string, b: string): int {
    if a == [] && b == [] then 0
    else if a == [] then -1
    else if b == [] then 1
    else if a[0] != b[0] then Sign(a[0] < b[0], true)
    else CompareText(a[1..], b[1..])
  }

  /** Null is less than everything, false less than true. */
  function CompareCells(a: Cell, b: Cell): int {
    match (a, b)
    case (Null, Null) => 0
    case (Null, _) => -1
    case (_, Null) => 1
    case (Number(x), Number(y)) => Sign(x < y, x > y)
    case (Date(x), Date(y)) => Sign(x < y, x > y)
    case (Text(x), Text(y)) => CompareText(x, y)
    case (Flag(x), Flag(y)) => Sign(!x && y, x && !y)
    case _ => 0
  }

  /** Two cells that one column may hold. */
  predicate Comparable(a: Cell, b: Cell) { a.Null? || b.Null? || a.SameType(b) }

  lemma {:induction false} CompareTextLaws(a: string, b: string, c: string)
    ensures -1 <= CompareText(a, b) <= 1 && CompareText(b, a) == -CompareText(a, b)
    ensures CompareText(a, b) <= 0 && CompareText(b, c) <= 0 ==> CompareText(a, c) <= 0
    ensures CompareText(a, b) == 0 <==> a == b
    decreases a
  {
    if a != [] && b != [] && a[0] == b[0] {
      CompareTextLaws(a[1..], b[1..], if c == [] then [] else c[1..]);
      assert a == [a[0]] + a[1..] && b == [b[0]] + b[1..];
    }
  }

  /** `a` is a proper prefix of `b`, or smaller at the first place `k` where they differ. */
  predicate SmallerAt(a: string, b: string, k: nat) {
    k <= |a| && k < |b| && a[..k] == b[..k] && (k == |a| || a[k] < b[k])
  }

  /** The comparison of texts is the order of a dictionary. */
  lemma {:induction false} CompareTextIsLexicographic(a: string, b: string)
    ensures CompareText(a, b) < 0 <==> exists k: nat :: SmallerAt(a, b, k)
  {
    if a == [] || b == [] || a[0] != b[0] {
      if CompareText(a, b) < 0 { assert SmallerAt(a, b, 0); }
    } else {
      CompareTextIsLexicographic(a[1..], b[1..]);
      if k: nat :| SmallerAt(a[1..], b[1..], k) {
        assert a[..k + 1] == [a[0]] + a[1..][..k] && b[..k + 1] == [b[0]] + b[1..][..k];
        assert SmallerAt(a, b, k + 1);
      }
      if k: nat :| SmallerAt(a, b, k) {
        assert a[1..][..k - 1] == a[..k][1..] && b[1..][..k - 1] == b[..k][1..];
        assert SmallerAt(a[1..], b[1..], k - 1);
      }
    }
  }

  lemma CompareCellsLaws(a: Cell, b: Cell, c: Cell)
    requires Comparable(a, b) && Comparable(b, c) && Comparable(a, c)
    ensures CompareCells(b, a) == -CompareCells(a, b)
    ensures CompareCells(a, b) <= 0 && CompareCells(b, c) <= 0 ==> CompareCells(a, c) <= 0
  {
    if a.Text? && b.Text? { CompareTextLaws(a.s, b.s, if c.Text? then c.s else []); }
  }

  /** How three cells compare with each other. */
  ghost predicate Transitive(ab: int, bc: int, ac: int) {
    && (ab <= 0 && bc <= 0 ==> ac <= 0) && (ab >= 0 && bc >= 0 ==> ac >= 0)
    && (ab < 0 && bc <= 0 ==> ac < 0) && (ab <= 0 && bc < 0 ==> ac < 0)
    && (ab > 0 && bc >= 0 ==> ac > 0) && (ab >= 0 && bc > 0 ==> ac > 0)
  }

  lemma CompareCellsTransitive(a: Cell, b: Cell, c: Cell)
    requires Comparable(a, b) && Comparable(b, c) && Comparable(a, c)
    ensures CompareCells(b, a) == -CompareCells(a, b)
    ensures Transitive(CompareCells(a, b), CompareCells(b, c), CompareCells(a, c))
  {
    CompareCellsLaws(a, b, c);
    CompareCellsLaws(a, c, b);
    CompareCellsLaws(b, a, c);
    CompareCellsLaws(b, c, a);
    CompareCellsLaws(c, a, b);
    CompareCellsLaws(c, b, a);
  }

  /** What less means: null before everything else, numbers and dates by size, texts as in a dictionary, false before true. */
  ghost predicate Less(a: Cell, b: Cell) {
    || (a.Null? && !b.Null?)
    || (a.Number? && b.Number? && a.n < b.n)
    || (a.Date? && b.Date? && a.ms < b.ms)
    || (a.Text? && b.Text? && exists k: nat :: SmallerAt(a.s, b.s, k))
    || (a.Flag? && b.Flag? && !a.b && b.b)
  }

  lemma CompareCellsMeans(a: Cell, b: Cell)
    requires Comparable(a, b)
    ensures CompareCells(a, b) < 0 <==> Less(a, b)
    ensures CompareCells(a, b) > 0 <==> Less(b, a)
    ensures CompareCells(a, b) == 0 <==> a == b
  {
    if a.Text? && b.Text? {
      CompareTextIsLexicographic(a.s, b.s);
      CompareTextIsLexicographic(b.s, a.s);
      CompareTextLaws(a.s, b.s, []);
    }
  }

  // ---------- rows ----------

  type Table = seq<seq<Cell>>

  /** The model's value, or null outside the table. */
  function CellAt(t: Table, row: int, column: nat): Cell {
    if 0 <= row < |t| && column < |t[row]| then t[row][column] else Null
  }

  ghost predicate SameColumn(t: Table, i: int, j: int, c: nat) {
    Comparable(CellAt(t, i, c), CellAt(t, j, c))
  }

  /** Every column holds values of one class, and nulls. */
  ghost predicate WellTyped(t: Table) {
    forall i, j: int, c: nat {:trigger SameColumn(t, i, j, c)} :: SameColumn(t, i, j, c)
  }

  /** `compare`: the first sorting column that tells two rows apart decides. */
  function CompareRows(t: Table, columns: seq<nat>, ascending: bool, row1: int, row2: int): int {
    if columns == [] then 0 else
      var result := CompareCells(CellAt(t, row1, columns[0]), CellAt(t, row2, columns[0]));
      if result != 0 then (if ascending then result else -result) else CompareRows(t, columns[1..], ascending, row1, row2)
  }

  function RowOrder(t: Table, columns: seq<nat>, ascending: bool): Order<int> {
    (row1: int, row2: int) => CompareRows(t, columns, ascending, row1, row2) <= 0
  }

  /** Marks the rows a proof compares. */
  ghost predicate Compared(row1: int, row2: int) { true }

  /** `le` is the row order of these columns. */
  ghost predicate Orders(t: Table, columns: seq<nat>, ascending: bool, le: Order<int>) {
    forall x, y {:trigger Compared(x, y)} :: Compared(x, y) ==> (le(x, y) <==> CompareRows(t, columns, ascending, x, y) <= 0)
  }

  lemma {:induction false} CompareRowsLaws(t: Table, columns: seq<nat>, ascending: bool, x: int, y: int, z: int)
    requires WellTyped(t)
    ensures CompareRows(t, columns, ascending, y, x) == -CompareRows(t, columns, ascending, x, y)
    ensures CompareRows(t, columns, ascending, x, y) <= 0 && CompareRows(t, columns, ascending, y, z) <= 0
            ==> CompareRows(t, columns, ascending, x, z) <= 0
  {
    if columns != [] {
      assert SameColumn(t, x, y, columns[0]) && SameColumn(t, y, z, columns[0]) && SameColumn(t, x, z, columns[0]);
      CompareCellsTransitive(CellAt(t, x, columns[0]), CellAt(t, y, columns[0]), CellAt(t, z, columns[0]));
      CompareRowsLaws(t, columns[1..], ascending, x, y, z);
    }
  }

  lemma RowOrderIsPreorder(t: Table, columns: seq<nat>, ascending: bool, le: Order<int>)
    requires WellTyped(t) && Orders(t, columns, ascending, le)
    ensures TotalPreorder(le)
  {
    forall x, y
      ensures le(x, y) || le(y, x)
    {
      assert Compared(x, y) && Compared(y, x);
      CompareRowsLaws(t, columns, ascending, x, y, x);
    }
    forall x, y, z | le(x, y) && le(y, z)
      ensures le(x, z)
    {
      assert Compared(x, y) && Compared(y, z) && Compared(x, z);
      CompareRowsLaws(t, columns, ascending, x, y, z);
    }
  }

  /** Comparing by two columns is comparing by the first, and by the second where the first ties. */
  lemma TwoColumns(t: Table, a: nat, b: nat, up: bool)
    requires WellTyped(t)
    ensures forall x, y :: RowOrder(t, [a, b], up)(x, y) == Lex(RowOrder(t, [a], up), RowOrder(t, [b], up))(x, y)
  {
    forall x, y
      ensures RowOrder(t, [a, b], up)(x, y) == Lex(RowOrder(t, [a], up), RowOrder(t, [b], up))(x, y)
    {
      assert [a, b][1..] == [b] && [a][1..] == [] && [b][1..] == [];
      CompareRowsLaws(t, [a], up, x, y, x);
    }
  }

  lemma ShortIsSorted(rows: seq<int>, le: Order<int>)
    requires |rows| < 2
    ensures StableSorted(rows, le) == rows
  {
  }

  lemma RowsMergeOfHalves(t: Table, columns: seq<nat>, ascending: bool, le: Order<int>, a: seq<int>, b: seq<int>)
    requires WellTyped(t) && Orders(t, columns, ascending, le)
    ensures Merge(StableSorted(a, le), StableSorted(b, le), le) == StableSorted(a + b, le)
  {
    RowOrderIsPreorder(t, columns, ascending, le);
    MergeOfHalves(a, b, le);
  }

  /** Sorted halves whose border is in order need no merging. */
  lemma RowsInOrder(t: Table, columns: seq<nat>, ascending: bool, le: Order<int>, a: seq<int>, b: seq<int>)
    requires WellTyped(t) && Orders(t, columns, ascending, le) && a != [] && b != []
    ensures var x, y := StableSorted(a, le), StableSorted(b, le);
      le(x[|a| - 1], y[0]) ==> Merge(x, y, le) == x + y
  {
    var x, y := StableSorted(a, le), StableSorted(b, le);
    RowOrderIsPreorder(t, columns, ascending, le);
    StableSortedMeetsSpec(a, le);
    StableSortedMeetsSpec(b, le);
    if le(x[|a| - 1], y[0]) {
      OrderedBorder(x, y, le);
      MergeOfOrdered(x, y, le);
    }
  }

  /** Down the rows no value of the column falls; a descending column is the same from the bottom up. */
  ghost predicate ColumnInOrder(t: Table, rows: seq<int>, column: nat, ascending: bool) {
    forall i, j :: 0 <= i < j < |rows| ==>
      if ascending then !Less(CellAt(t, rows[j], column), CellAt(t, rows[i], column))
      else !Less(CellAt(t, rows[i], column), CellAt(t, rows[j], column))
  }

  /** Rows with the same value in the column stay in the order in which they stood. */
  ghost predicate TiesKept(t: Table, before: seq<int>, rows: seq<int>, column: nat) {
    multiset(rows) == multiset(before) &&
    forall v: Cell {:trigger WithValue(t, rows, column, v)} :: WithValue(t, rows, column, v) == WithValue(t, before, column, v)
  }

  /** The rows that hold a value in the column, in order. */
  ghost function WithValue(t: Table, rows: seq<int>, column: nat, v: Cell): seq<int> {
    if rows == [] then [] else
      (if CellAt(t, rows[0], column) == v then [rows[0]] else []) + WithValue(t, rows[1..], column, v)
  }

  lemma OneColumn(t: Table, column: nat, ascending: bool, x: int, y: int)
    requires WellTyped(t)
    ensures RowOrder(t, [column], ascending)(x, y) <==>
      if ascending then !Less(CellAt(t, y, column), CellAt(t, x, column)) else !Less(CellAt(t, x, column), CellAt(t, y, column))
    ensures Same(RowOrder(t, [column], ascending), x, y) <==> CellAt(t, x, column) == CellAt(t, y, column)
  {
    assert SameColumn(t, x, y, column) && SameColumn(t, y, x, column);
    CompareCellsMeans(CellAt(t, x, column), CellAt(t, y, column));
    CompareCellsMeans(CellAt(t, y, column), CellAt(t, x, column));
    OnlyColumn(t, column, ascending, x, y);
    OnlyColumn(t, column, ascending, y, x);
  }

  lemma OnlyColumn(t: Table, column: nat, ascending: bool, x: int, y: int)
    ensures var c := CompareCells(CellAt(t, x, column), CellAt(t, y, column));
      CompareRows(t, [column], ascending, x, y) == if ascending then c else -c
  {
    assert [column][0] == column && [column][1..] == [];
    assert CompareRows(t, [], ascending, x, y) == 0;
  }

  lemma {:induction false} WithValueIsClass(t: Table, rows: seq<int>, column: nat, ascending: bool, k: int)
    requires WellTyped(t)
    ensures WithValue(t, rows, column, CellAt(t, k, column)) == Class(rows, RowOrder(t, [column], ascending), k)
  {
    if rows != [] {
      OneColumn(t, column, ascending, rows[0], k);
      WithValueIsClass(t, rows[1..], column, ascending, k);
    }
  }

  lemma {:induction false} NoneWithValue(t: Table, rows: seq<int>, column: nat, v: Cell)
    requires forall r :: r in rows ==> CellAt(t, r, column) != v
    ensures WithValue(t, rows, column, v) == []
  {
    if rows != [] {
      assert rows[0] in rows;
      NoneWithValue(t, rows[1..], column, v);
    }
  }

  /** What sorting by one column shows. */
  lemma SortedByColumn(t: Table, rows: seq<int>, column: nat, ascending: bool)
    requires WellTyped(t)
    ensures var shown := StableSorted(rows, RowOrder(t, [column], ascending));
      ColumnInOrder(t, shown, column, ascending) && TiesKept(t, rows, shown, column)
  {
    var le := RowOrder(t, [column], ascending);
    var shown := StableSorted(rows, le);
    RowOrderIsPreorder(t, [column], ascending, le);
    StableSortedMeetsSpec(rows, le);
    StableSortPermutes(rows, shown, le);
    forall i, j | 0 <= i < j < |shown|
      ensures if ascending then !Less(CellAt(t, shown[j], column), CellAt(t, shown[i], column))
              else !Less(CellAt(t, shown[i], column), CellAt(t, shown[j], column))
    {
      OneColumn(t, column, ascending, shown[i], shown[j]);
    }
    forall v: Cell ensures WithValue(t, shown, column, v) == WithValue(t, rows, column, v) {
      SameWithValue(t, rows, shown, column, ascending, v);
    }
  }

  lemma SameWithValue(t: Table, rows: seq<int>, shown: seq<int>, column: nat, ascending: bool, v: Cell)
    requires WellTyped(t) && multiset(rows) == multiset(shown) && SameClasses(rows, shown, RowOrder(t, [column], ascending))
    ensures WithValue(t, shown, column, v) == WithValue(t, rows, column, v)
  {
    if k :| k in rows && CellAt(t, k, column) == v {
      WithValueIsClass(t, rows, column, ascending, k);
      WithValueIsClass(t, shown, column, ascending, k);
    } else {
      forall r | r in shown ensures r in rows { assert r in multiset(shown); }
      NoneWithValue(t, rows, column, v);
      NoneWithValue(t, shown, column, v);
    }
  }

  /** So ascending nulls come first, and descending they come last. */
  lemma NullsAtTheEnd(t: Table, rows: seq<int>, column: nat, ascending: bool, i: nat, j: nat)
    requires ColumnInOrder(t, rows, column, ascending) && i < j < |rows|
    ensures ascending && CellAt(t, rows[j], column).Null? ==> CellAt(t, rows[i], column).Null?
    ensures !ascending && CellAt(t, rows[i], column).Null? ==> CellAt(t, rows[j], column).Null?
  {
  }

  ghost predicate RowsOf(t: Table, rows: seq<int>) {
    forall i :: 0 <= i < |rows| ==> 0 <= rows[i] < |t|
  }

  lemma SortedRowsInRange(t: Table, columns: seq<nat>, ascending: bool, le: Order<int>, rows: seq<int>)
    requires WellTyped(t) && Orders(t, columns, ascending, le) && RowsOf(t, rows)
    ensures RowsOf(t, StableSorted(rows, le))
  {
    RowOrderIsPreorder(t, columns, ascending, le);
    StableSortedMeetsSpec(rows, le);
    var r := StableSorted(rows, le);
    StableSortPermutes(rows, r, le);
    forall i | 0 <= i < |r|
      ensures 0 <= r[i] < |t|
    {
      assert r[i] in multiset(rows);
    }
  }

  // ---------- the sorter ----------

  class Sorter {
    const table: Table
    const indexes: array<int>  // the order in which the rows are shown
    var sortingColumns: seq<nat>
    var ascending: bool

    ghost predicate Valid()
      reads this, indexes
    {
      WellTyped(table) && RowsOf(table, indexes[..])
    }

    ghost function ShownOrder(): Order<int>
      reads this
    {
      RowOrder(table, sortingColumns, ascending)
    }

    /** `reallocateIndexes`: rows as the model has them. */
    constructor (table: Table)
      requires WellTyped(table)
      ensures this.table == table && Valid() && fresh(indexes)
      ensures indexes[..] == seq(|table|, i => i)
    {
      this.table := table;
      this.indexes := new int[|table|](i => i);
      this.sortingColumns := [];
      this.ascending := true;
    }

    method AtMost(row1: int, row2: int, ghost le: Order<int>) returns (r: bool)
      requires Orders(table, sortingColumns, ascending, le)
      ensures r == le(row1, row2)
    {
      var c := Compare(row1, row2);
      assert Compared(row1, row2);
      r := c <= 0;
    }

    method Compare(row1: int, row2: int) returns (r: int)
      ensures r == CompareRows(table, sortingColumns, ascending, row1, row2)
    {
      for level := 0 to |sortingColumns|
        invariant CompareRows(table, sortingColumns[level..], ascending, row1, row2) == CompareRows(table, sortingColumns, ascending, row1, row2)
      {
        assert sortingColumns[level..][1..] == sortingColumns[level + 1..];
        var result := CompareCells(CellAt(table, row1, sortingColumns[level]), CellAt(table, row2, sortingColumns[level]));
        if result != 0 {
          return if ascending then result else -result;
        }
      }
      return 0;
    }

    /**
     Sorts the range from `from` into `to`, using both as work space.  The halves are sorted with the
     arrays in exchanged roles; then either they are already in order, or they are merged.
     */
    method ShuttleSort(from: array<int>, to: array<int>, low: nat, high: nat, ghost le: Order<int>)
      requires WellTyped(table) && Orders(table, sortingColumns, ascending, le)
      requires from != to && low <= high <= from.Length == to.Length
      requires from[low..high] == to[low..high]
      modifies from, to
      ensures to[low..high] == StableSorted(old(to[low..high]), le)
      ensures forall i :: 0 <= i < to.Length && !(low <= i < high) ==> to[i] == old(to[i])
      ensures forall i :: 0 <= i < from.Length && !(low <= i < high) ==> from[i] == old(from[i])
      decreases high - low, 1
    {
      if high - low < 2 {
        ShortIsSorted(to[low..high], le);
        return;
      }
      var middle := (low + high) / 2;
      ghost var left, right := from[low..middle], from[middle..high];
      assert from[low..high] == left + right;
      SortHalves(from, to, low, middle, high, le);
      RowsMergeOfHalves(table, sortingColumns, ascending, le, left, right);
      RowsInOrder(table, sortingColumns, ascending, le, left, right);
      JoinHalves(from, to, low, middle, high, le, StableSorted(left, le), StableSorted(right, le));
    }

    /** The short cut for four or more elements that are in order as they stand, and otherwise the merge. */
    method JoinHalves(from: array<int>, to: array<int>, low: nat, middle: nat, high: nat, ghost le: Order<int>,
                      ghost left: seq<int>, ghost right: seq<int>)
      requires WellTyped(table) && Orders(table, sortingColumns, ascending, le)
      requires from != to && low < middle < high <= from.Length == to.Length
      requires from[low..middle] == left && from[middle..high] == right
      requires le(left[|left| - 1], right[0]) ==> Merge(left, right, le) == left + right
      modifies to
      ensures to[low..high] == Merge(left, right, le)
      ensures forall i :: 0 <= i < to.Length && !(low <= i < high) ==> to[i] == old(to[i])
    {
      var inOrder := false;
      if high - low >= 4 {
        inOrder := AtMost(from[middle - 1], from[middle], le);
      }
      if inOrder {
        CopyRange(from, to, low, middle, high);
      } else {
        MergeHalves(from, to, low, middle, high, le);
      }
    }

    /** The two recursive calls, with the arrays in exchanged roles. */
    method SortHalves(from: array<int>, to: array<int>, low: nat, middle: nat, high: nat, ghost le: Order<int>)
      requires WellTyped(table) && Orders(table, sortingColumns, ascending, le)
      requires from != to && low < middle < high <= from.Length == to.Length
      requires from[low..high] == to[low..high]
      modifies from, to
      ensures from[low..middle] == StableSorted(old(from[low..middle]), le)
      ensures from[middle..high] == StableSorted(old(from[middle..high]), le)
      ensures forall i :: 0 <= i < to.Length && !(low <= i < high) ==> to[i] == old(to[i])
      ensures forall i :: 0 <= i < from.Length && !(low <= i < high) ==> from[i] == old(from[i])
      decreases high - low, 0
    {
      assert from[low..middle] == from[low..high][..middle - low] == to[low..middle];
      assert from[middle..high] == from[low..high][middle - low..] == to[middle..high];
      ShuttleSort(to, from, low, middle, le);
      assert from[middle..high] == old(from[middle..high]) && to[middle..high] == old(to[middle..high]);
      ghost var left := from[low..middle];
      ShuttleSort(to, from, middle, high, le);
      assert from[low..middle] == left;
    }

    method CopyRange(from: array<int>, to: array<int>, low: nat, middle: nat, high: nat)
      requires from != to && low <= middle <= high <= from.Length == to.Length
      modifies to
      ensures to[low..high] == from[low..middle] + from[middle..high]
      ensures forall i :: 0 <= i < to.Length && !(low <= i < high) ==> to[i] == old(to[i])
    {
      for i := low to high
        invariant forall k :: 0 <= k < to.Length ==> to[k] == if low <= k < i then from[k] else old(to[k])
      {
        to[i] := from[i];
      }
    }

    method MergeHalves(from: array<int>, to: array<int>, low: nat, middle: nat, high: nat, ghost le: Order<int>)
      requires Orders(table, sortingColumns, ascending, le)
      requires from != to && low <= middle <= high <= from.Length == to.Length
      modifies to
      ensures to[low..high] == Merge(from[low..middle], from[middle..high], le)
      ensures forall i :: 0 <= i < to.Length && !(low <= i < high) ==> to[i] == old(to[i])
    {
      ghost var left, right := from[low..middle], from[middle..high];
      ghost var merged := Merge(left, right, le);
      ghost var plan := PlanOfMerge(left, right, le);
      MergeByPlan(from, to, low, middle, high, le, merged, plan);
      assert to[low..high] == merged;
    }

    method MergeByPlan(from: array<int>, to: array<int>, low: nat, middle: nat, high: nat, ghost le: Order<int>,
                       ghost merged: seq<int>, ghost plan: seq<int>)
      requires Orders(table, sortingColumns, ascending, le)
      requires from != to && low <= middle <= high <= from.Length == to.Length
      requires IsPlan(from[low..middle], from[middle..high], plan, merged, le)
      modifies to
      ensures forall i :: 0 <= i < to.Length ==> to[i] == if low <= i < high then merged[i - low] else old(to[i])
    {
      ghost var left, right := from[low..middle], from[middle..high];
      var p, q := low, middle;
      for i := low to high
        invariant low <= p <= middle <= q <= high && p - low == plan[i - low] && q - middle == i - p
        invariant forall k :: 0 <= k < to.Length ==> to[k] == if low <= k < i then merged[k - low] else old(to[k])
      {
        assert PlanStep(left, right, i - low, plan[i - low], plan[i - low + 1], merged[i - low], le);
        var fromLeft := TakesLeft(from, p, middle, q, high, le);
        if fromLeft {
          to[i] := from[p];
          p := p + 1;
        } else {
          to[i] := from[q];
          q := q + 1;
        }
      }
    }

    method TakesLeft(from: array<int>, p: nat, middle: nat, q: nat, high: nat, ghost le: Order<int>) returns (r: bool)
      requires Orders(table, sortingColumns, ascending, le)
      requires p <= middle <= q <= high <= from.Length
      ensures r == (q == high || (p < middle && le(from[p], from[q])))
    {
      if q >= high { return true; }
      if p >= middle { return false; }
      r := AtMost(from[p], from[q], le);
    }

    method Sort()
      requires Valid()
      modifies indexes
      ensures Valid() && indexes[..] == StableSorted(old(indexes[..]), ShownOrder())
    {
      var clone := new int[indexes.Length](i requires 0 <= i < indexes.Length reads indexes => indexes[i]);
      ghost var before := indexes[..];
      assert clone[..] == before;
      assert clone[0..indexes.Length] == clone[..] && indexes[0..indexes.Length] == before;
      ShuttleSort(clone, indexes, 0, indexes.Length, ShownOrder());
      assert indexes[0..indexes.Length] == indexes[..];
      SortedRowsInRange(table, sortingColumns, ascending, ShownOrder(), before);
    }

    method SortByColumn(column: nat, ascending: bool)
      requires Valid()
      modifies this`sortingColumns, this`ascending, indexes
      ensures Valid() && indexes[..] == StableSorted(old(indexes[..]), RowOrder(table, [column], ascending))
      ensures ColumnInOrder(table, indexes[..], column, ascending) && TiesKept(table, old(indexes[..]), indexes[..], column)
    {
      this.ascending := ascending;
      sortingColumns := [column];
      SortedByColumn(table, indexes[..], column, ascending);
      Sort();
    }

    /** Two clicks, each in its own direction: sorting by column `b` and then by column `a` shows the rows in the order of (a, b). */
    method SortByTwoColumns(a: nat, aUp: bool, b: nat, bUp: bool)
      requires Valid()
      modifies this`sortingColumns, this`ascending, indexes
      ensures Valid() && indexes[..] == StableSorted(old(indexes[..]), Lex(RowOrder(table, [a], aUp), RowOrder(table, [b], bUp)))
      ensures aUp == bUp ==> indexes[..] == StableSorted(old(indexes[..]), RowOrder(table, [a, b], aUp))
    {
      ghost var before := indexes[..];
      SortByColumn(b, bUp);
      SortByColumn(a, aUp);
      TwoClicks(table, before, a, aUp, b, bUp);
    }
  }

  lemma TwoClicks(t: Table, rows: seq<int>, a: nat, aUp: bool, b: nat, bUp: bool)
    requires WellTyped(t)
    ensures var twice := StableSorted(StableSorted(rows, RowOrder(t, [b], bUp)), RowOrder(t, [a], aUp));
      && twice == StableSorted(rows, Lex(RowOrder(t, [a], aUp), RowOrder(t, [b], bUp)))
      && (aUp == bUp ==> twice == StableSorted(rows, RowOrder(t, [a, b], aUp)))
  {
    var la, lb := RowOrder(t, [a], aUp), RowOrder(t, [b], bUp);
    RowOrderIsPreorder(t, [a], aUp, la);
    RowOrderIsPreorder(t, [b], bUp, lb);
    SortTwice(rows, la, lb);
    if aUp == bUp {
      TwoColumns(t, a, b, aUp);
      SameOrderSameSort(rows, RowOrder(t, [a, b], aUp), Lex(la, lb));
    }
  }
}
