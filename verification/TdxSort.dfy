/** Sorting the time table of a process log (`ReadFile.tableSort`, src/ecm/ErrorCaseManager/TDXView.java). */
module TdxSort {
  import opened StableSort
  import Commands

  // ---------- the sort key ----------

  predicate IsDigit(c: char) { '0' <= c <= '9' }

  function Digits(s: string): int
    requires forall i :: 0 <= i < |s| ==> IsDigit(s[i])
  {
    if s == [] then 0 else Digits(s[..|s| - 1]) * 10 + (s[|s| - 1] as int - '0' as int)
  }

  function Unsigned(s: string): string {
    if s != [] && (s[0] == '-' || s[0] == '+') then s[1..] else s
  }

  /** The number in a cell, for the cells that `Integer.parseInt` accepts. */
  function Value(s: string): int
    requires IsNumber(s)
  {
    if s[0] == '-' then -Digits(Unsigned(s)) else Digits(Unsigned(s))
  }

  predicate IsNumber(s: string) {
    && Unsigned(s) != [] && (forall i :: 0 <= i < |Unsigned(s)| ==> IsDigit(Unsigned(s)[i]))
    && var v := if s[0] == '-' then -Digits(Unsigned(s)) else Digits(Unsigned(s)); -0x8000_0000 <= v < 0x8000_0000
  }

  /** Reading back a number written in decimal. */
  lemma {:induction false} DigitsOfDecimal(n: nat)
    ensures var d := Commands.Decimal(n);
      d != [] && (forall i :: 0 <= i < |d| ==> IsDigit(d[i])) && Digits(d) == n
  {
    var d := Commands.Decimal(n);
    if n < 10 {
      assert d[..0] == [];
    } else {
      DigitsOfDecimal(n / 10);
      assert d[..|d| - 1] == Commands.Decimal(n / 10);
    }
  }

  /** The key of a row whose first cell is a number in decimal is that number, with either sign. */
  lemma KeyOfDecimal(n: int, rest: Row)
    requires 0 <= n < 0x8000_0000
    ensures Key([Commands.Decimal(n)] + rest) == Key(["+" + Commands.Decimal(n)] + rest) == n
    ensures Key(["-" + Commands.Decimal(n)] + rest) == 0 - n
  {
    var d := Commands.Decimal(n);
    DigitsOfDecimal(n);
    assert IsDigit(d[0]);
    assert Unsigned("+" + d) == Unsigned("-" + d) == d;
  }

  type Row = seq<string>

  function Key(r: Row): int {
    if r != [] && IsNumber(r[0]) then Value(r[0]) else 0
  }

  /** Rows compare by the number in their first column. */
  function KeyOrder(): Order<Row> {
    (x: Row, y: Row) => Key(x) <= Key(y)
  }

  lemma KeyOrderIsPreorder()
    ensures TotalPreorder(KeyOrder())
  {
  }

  // ---------- bubbling on rows ----------

  function Swapped<T>(s: seq<T>, j: nat): (r: seq<T>)
    requires 0 < j < |s|
    ensures |r| == |s|
  {
    s[j - 1 := s[j]][j := s[j - 1]]
  }

  /** Exchanging neighbours that are strictly out of order moves no element past an equivalent one. */
  lemma SwapKeepsClasses<T(!new)>(s: seq<T>, j: nat, le: Order<T>)
    requires TotalPreorder(le) && 0 < j < |s| && !le(s[j - 1], s[j])
    ensures SameClasses(s, Swapped(s, j), le)
  {
    var a, x, y, b := s[..j - 1], s[j - 1], s[j], s[j + 1..];
    assert s == a + ([x] + ([y] + b)) && Swapped(s, j) == a + ([y] + ([x] + b));
    forall k
      ensures Class(s, le, k) == Class(Swapped(s, j), le, k)
    {
      ClassConcat(a, [x] + ([y] + b), le, k);
      ClassConcat(a, [y] + ([x] + b), le, k);
      ClassCons(x, [y] + b, le, k);
      ClassCons(y, b, le, k);
      ClassCons(y, [x] + b, le, k);
      ClassCons(x, b, le, k);
    }
  }

  lemma SameClassesTrans<T(!new)>(a: seq<T>, b: seq<T>, c: seq<T>, le: Order<T>)
    requires SameClasses(a, b, le) && SameClasses(b, c, le)
    ensures SameClasses(a, c, le)
  {
  }

  /** The element at `j` is least among those from `j` on. */
  ghost predicate LeastFrom(rows: seq<Row>, j: int) {
    forall k :: 0 <= j <= k < |rows| ==> Key(rows[j]) <= Key(rows[k])
  }

  /** The first `i` rows are in order and below the rest. */
  ghost predicate OrderedUpTo(rows: seq<Row>, i: int) {
    forall h :: 0 <= h < i && h < |rows| ==> LeastFrom(rows, h)
  }

  /** One comparison of the inner loop. */
  function BubbleStep(rows: seq<Row>, j: nat): (r: seq<Row>)
    requires 0 < j < |rows|
    ensures |r| == |rows|
  {
    if Key(rows[j - 1]) > Key(rows[j]) then Swapped(rows, j) else rows
  }

  /** What both loops keep. */
  ghost predicate Bubbling(orig: seq<Row>, rows: seq<Row>, i: int) {
    SameClasses(orig, rows, KeyOrder()) && OrderedUpTo(rows, i)
  }

  lemma BubbleStepKeeps(orig: seq<Row>, rows: seq<Row>, i: nat, j: nat)
    requires i < j < |rows| && Bubbling(orig, rows, i) && LeastFrom(rows, j)
    ensures Bubbling(orig, BubbleStep(rows, j), i) && LeastFrom(BubbleStep(rows, j), j - 1)
  {
    if Key(rows[j - 1]) > Key(rows[j]) {
      KeyOrderIsPreorder();
      SwapKeepsClasses(rows, j, KeyOrder());
      SameClassesTrans(orig, rows, Swapped(rows, j), KeyOrder());
      var next := Swapped(rows, j);
      forall h, k | 0 <= h < i && h <= k < |next|
        ensures Key(next[h]) <= Key(next[k])
      {
        assert LeastFrom(rows, h);
      }
    }
  }

  lemma OrderedIsSorted(rows: seq<Row>)
    requires OrderedUpTo(rows, |rows| - 1)
    ensures Sorted(rows, KeyOrder())
  {
    forall i, j | 0 <= i < j < |rows|
      ensures KeyOrder()(rows[i], rows[j])
    {
      assert LeastFrom(rows, i);
    }
  }

  /** What the loops keep makes their result the stable sort. */
  lemma BubblingDone(orig: seq<Row>, rows: seq<Row>)
    requires Bubbling(orig, rows, |rows| - 1)
    ensures rows == StableSorted(orig, KeyOrder())
  {
    KeyOrderIsPreorder();
    OrderedIsSorted(rows);
    StableSortIsUnique(orig, rows, KeyOrder());
  }

  // ---------- rows in a flat table ----------

  lemma NonNegative(a: nat, b: nat)
    ensures a * b >= 0
  {
  }

  lemma RowFits(r: int, n: int, w: int)
    requires 0 <= r < n && 0 <= w
    ensures 0 <= r * w && (r + 1) * w == r * w + w <= n * w
  {
  }

  lemma RowsApart(r: int, s: int, w: int)
    requires 0 <= r < s && 0 <= w
    ensures r * w + w <= s * w
  {
    NonNegative(s - r - 1, w);
    assert s * w == r * w + w + (s - r - 1) * w;
  }

  /** Row `r` of a flat table with `w` columns. */
  ghost function RowAt(data: seq<string>, r: nat, w: nat): Row
    requires r * w + w <= |data|
  {
    data[r * w..r * w + w]
  }

  ghost predicate HasRows(data: seq<string>, n: nat, w: nat) { n * w <= |data| }

  lemma SliceMoved(old_: seq<string>, new_: seq<string>, lo: nat, w: nat)
    requires lo + w + w <= |old_| == |new_|
    requires forall p {:trigger new_[p]} :: lo <= p < lo + w ==> new_[p] == old_[p + w]
    ensures new_[lo..lo + w] == old_[lo + w..lo + w + w]
  {
    var a, b := new_[lo..lo + w], old_[lo + w..lo + w + w];
    forall k | 0 <= k < w ensures a[k] == b[k] {
      assert a[k] == new_[lo + k];
    }
  }

  /** The first `n` rows of a flat table with `w` columns. */
  ghost function Rows(data: seq<string>, n: nat, w: nat): (rows: seq<Row>)
    requires HasRows(data, n, w)
    ensures |rows| == n
  {
    seq(n, r requires 0 <= r < n => (RowFits(r, n, w); RowAt(data, r, w)))
  }

  /** The data with the rows that start at `lo` and `lo + w` exchanged. */
  ghost predicate Exchanged(old_: seq<string>, new_: seq<string>, lo: nat, w: nat)
    requires lo + w + w <= |old_|
  {
    && |new_| == |old_|
    && new_[lo..lo + w] == old_[lo + w..lo + w + w] && new_[lo + w..lo + w + w] == old_[lo..lo + w]
    && forall p :: 0 <= p < |old_| && !(lo <= p < lo + w + w) ==> new_[p] == old_[p]
  }

  lemma ExchangedRows(before: seq<string>, after: seq<string>, n: nat, w: nat, j: nat)
    requires 0 < j < n && HasRows(before, n, w) && j * w + w <= |before| && (j - 1) * w + w == j * w
    requires 0 <= (j - 1) * w && Exchanged(before, after, (j - 1) * w, w)
    ensures HasRows(after, n, w) && Rows(after, n, w) == Swapped(Rows(before, n, w), j)
  {
    var rows := Swapped(Rows(before, n, w), j);
    forall r | 0 <= r < n
      ensures Rows(after, n, w)[r] == rows[r]
    {
      RowFits(r, n, w);
      if r < j - 1 {
        RowsApart(r, j - 1, w);
      } else if r > j {
        RowsApart(j, r, w);
      }
      assert r != j - 1 && r != j ==> RowAt(after, r, w) == RowAt(before, r, w);
    }
  }

  ghost predicate KeyIsNumber(rows: seq<Row>, r: int)
    requires 0 <= r < |rows|
  {
    rows[r] != [] && IsNumber(rows[r][0])
  }

  /** `Integer.parseInt` accepts the first cell of every row. */
  ghost predicate KeysAreNumbers(rows: seq<Row>) {
    forall r {:trigger KeyIsNumber(rows, r)} :: 0 <= r < |rows| ==> KeyIsNumber(rows, r)
  }

  /** Within a pass: the least of the rows from `i` on has come down to `j`. */
  ghost predicate Passing(orig: seq<Row>, rows: seq<Row>, i: int, j: int) {
    KeysAreNumbers(rows) && Bubbling(orig, rows, i) && LeastFrom(rows, j)
  }

  lemma PassBegins(orig: seq<Row>, rows: seq<Row>, i: nat, j: int)
    requires KeysAreNumbers(rows) && Bubbling(orig, rows, i) && j == |rows| - 1
    ensures Passing(orig, rows, i, j)
  {
  }

  lemma PassDone(orig: seq<Row>, rows: seq<Row>, i: nat, j: nat)
    requires Passing(orig, rows, i, j) && j == i
    ensures KeysAreNumbers(rows) && Bubbling(orig, rows, i + 1)
  {
  }

  lemma StepKeepsNumbers(rows: seq<Row>, j: nat)
    requires 0 < j < |rows| && KeysAreNumbers(rows)
    ensures KeysAreNumbers(BubbleStep(rows, j))
  {
    var next := BubbleStep(rows, j);
    forall r | 0 <= r < |next|
      ensures KeyIsNumber(next, r)
    {
      assert KeyIsNumber(rows, r) && KeyIsNumber(rows, j) && KeyIsNumber(rows, j - 1);
    }
  }

  class ReadFile {
    const tableData: array<string>
    const maxProcess: nat
    const totalLineCnt: nat
    const temp: array<string>  // one row of cells

    ghost predicate Valid()
      reads tableData
    {
      && temp != tableData && temp.Length == Columns()
      && HasRows(tableData[..], totalLineCnt, Columns())
    }

    constructor (tableData: array<string>, maxProcess: nat, totalLineCnt: nat)
      requires HasRows(tableData[..], totalLineCnt, maxProcess + 2)
      ensures this.tableData == tableData && this.maxProcess == maxProcess && this.totalLineCnt == totalLineCnt
      ensures Valid() && fresh(temp)
    {
      this.tableData := tableData;
      this.maxProcess := maxProcess;
      this.totalLineCnt := totalLineCnt;
      this.temp := new string[maxProcess + 2](_ => "");
    }

    /** The time column, and one column for each process from 0 on. */
    function Columns(): nat { maxProcess + 2 }

    ghost function TableRows(): seq<Row>
      requires Valid()
      reads tableData
    {
      Rows(tableData[..], totalLineCnt, Columns())
    }

    /** The cells behind the table's rows, if there are any. */
    ghost function Rest(): seq<string>
      requires Valid()
      reads tableData
    {
      tableData[..][totalLineCnt * Columns()..]
    }

    method CopyOut(lo: nat)
      requires temp != tableData && temp.Length == Columns() && lo + Columns() <= tableData.Length
      modifies temp
      ensures temp[..] == tableData[lo..lo + Columns()]
    {
      for k := 0 to Columns()
        invariant forall p :: 0 <= p < k ==> temp[p] == tableData[lo + p]
      {
        temp[k] := tableData[lo + k];
      }
    }

    method MoveBack(lo: nat)
      requires lo + Columns() + Columns() <= tableData.Length
      modifies tableData
      ensures tableData[lo..lo + Columns()] == old(tableData[lo + Columns()..lo + Columns() + Columns()])
      ensures forall p :: 0 <= p < tableData.Length && !(lo <= p < lo + Columns()) ==> tableData[p] == old(tableData[p])
    {
      var w := Columns();
      ghost var before := tableData[..];
      for k := 0 to w
        invariant forall p {:trigger tableData[p]} :: lo <= p < lo + k ==> tableData[p] == before[p + w]
        invariant forall p {:trigger tableData[p]} :: 0 <= p < tableData.Length && !(lo <= p < lo + k) ==> tableData[p] == before[p]
      {
        assert tableData[lo + k + w] == before[lo + k + w];
        tableData[lo + k] := tableData[lo + k + w];
      }
      ghost var now := tableData[..];
      SliceMoved(before, now, lo, w);
      assert tableData[lo..lo + w] == now[lo..lo + w];
    }

    method CopyBack(lo: nat)
      requires temp != tableData && temp.Length == Columns() && lo + Columns() <= tableData.Length
      modifies tableData
      ensures tableData[lo..lo + Columns()] == temp[..]
      ensures forall p :: 0 <= p < tableData.Length && !(lo <= p < lo + Columns()) ==> tableData[p] == old(tableData[p])
    {
      for k := 0 to Columns()
        invariant forall p :: 0 <= p < k ==> tableData[lo + p] == temp[p]
        invariant forall p :: 0 <= p < tableData.Length && !(lo <= p < lo + k) ==> tableData[p] == old(tableData[p])
      {
        tableData[lo + k] := temp[k];
      }
    }

    /** Exchanges the two rows that start at `lo`, through the temporary row. */
    method SwapRows(lo: nat)
      requires temp != tableData && temp.Length == Columns() && lo + Columns() + Columns() <= tableData.Length
      modifies tableData, temp
      ensures Exchanged(old(tableData[..]), tableData[..], lo, Columns())
    {
      var w := Columns();
      ghost var before := tableData[..];
      CopyOut(lo);
      MoveBack(lo);
      ghost var between := tableData[..];
      assert between[lo..lo + w] == tableData[lo..lo + w] == before[lo + w..lo + w + w];
      CopyBack(lo + w);
      ghost var after := tableData[..];
      assert after[lo + w..lo + w + w] == tableData[lo + w..lo + w + w] == before[lo..lo + w];
      assert after[lo..lo + w] == between[lo..lo + w];
    }

    method KeyOfRow(r: nat) returns (v: int)
      requires Valid() && r < totalLineCnt && KeysAreNumbers(TableRows())
      ensures v == Key(TableRows()[r])
    {
      RowFits(r, totalLineCnt, Columns());
      assert KeyIsNumber(TableRows(), r) && TableRows()[r][0] == tableData[r * Columns()];
      v := Value(tableData[r * Columns()]);
    }

    method SwapWithPrevious(j: nat)
      requires Valid() && 0 < j < totalLineCnt
      modifies tableData, temp
      ensures Valid() && TableRows() == Swapped(old(TableRows()), j) && Rest() == old(Rest())
    {
      RowFits(j, totalLineCnt, Columns());
      RowFits(j - 1, totalLineCnt, Columns());
      ghost var before := tableData[..];
      SwapRows((j - 1) * Columns());
      ExchangedRows(before, tableData[..], totalLineCnt, Columns(), j);
    }

    /** One comparison of the inner loop, and the exchange if the rows are out of order. */
    method CompareAndSwap(j: nat)
      requires Valid() && 0 < j < totalLineCnt && KeysAreNumbers(TableRows())
      modifies tableData, temp
      ensures Valid() && TableRows() == BubbleStep(old(TableRows()), j) && KeysAreNumbers(TableRows())
      ensures Rest() == old(Rest())
    {
      StepKeepsNumbers(TableRows(), j);
      var value1 := KeyOfRow(j);
      var value2 := KeyOfRow(j - 1);
      if value2 > value1 {
        SwapWithPrevious(j);
      }
    }

    /** Whole rows move, and they end in the one stable order by the number in their first column. */
    method TableSort()
      requires Valid() && KeysAreNumbers(TableRows())
      modifies tableData, temp
      ensures Valid() && TableRows() == StableSorted(old(TableRows()), KeyOrder())
      ensures Rest() == old(Rest())
    {
      ghost var orig := TableRows();
      var i := 0;
      while i < totalLineCnt - 1
        invariant 0 <= i && (i == 0 || i < totalLineCnt) && Valid() && Rest() == old(Rest())
        invariant KeysAreNumbers(TableRows()) && Bubbling(orig, TableRows(), i)
      {
        BubblePass(i, orig);
        i := i + 1;
      }
      BubblingDone(orig, TableRows());
    }

    /** The inner loop: the least of the rows from `i` on comes down to `i`. */
    method BubblePass(i: nat, ghost orig: seq<Row>)
      requires Valid() && i < totalLineCnt && KeysAreNumbers(TableRows()) && Bubbling(orig, TableRows(), i)
      modifies tableData, temp
      ensures Valid() && Rest() == old(Rest())
      ensures KeysAreNumbers(TableRows()) && Bubbling(orig, TableRows(), i + 1)
    {
      var j := totalLineCnt - 1;
      PassBegins(orig, TableRows(), i, j);
      while j > i
        invariant i <= j < totalLineCnt && Valid() && Rest() == old(Rest())
        invariant Passing(orig, TableRows(), i, j)
      {
        BubbleOnce(i, j, orig);
        j := j - 1;
      }
      PassDone(orig, TableRows(), i, j);
    }

    method BubbleOnce(i: nat, j: nat, ghost orig: seq<Row>)
      requires Valid() && i < j < totalLineCnt && Passing(orig, TableRows(), i, j)
      modifies tableData, temp
      ensures Valid() && Rest() == old(Rest()) && Passing(orig, TableRows(), i, j - 1)
    {
      BubbleStepKeeps(orig, TableRows(), i, j);
      CompareAndSwap(j);
    }
  }
}
