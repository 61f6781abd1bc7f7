/**
 Which last columns are safe in real tables: all columns have a value for every record, every
 line table comes from the values, and the slack is what the short headers leave.
 */
module TableOptimality {
  import opened ColumnWidths
  import opened WidthOptimality
  import opened TableSizing

  /** The column that `printTable` works out from the values. */
  ghost function ColumnOf(lim: Limits, d: DataColumn): (c: Column)
    ensures Describes(lim, d, c)
  {
    Column(d.shortHeader, NaturalWidth(d), seq(lim.width, i requires i >= 0 => DataLines(lim, d.lengths, |d.lengths|, i + 1)))
  }

  /** The same column in a table with `k` more records, for which it is empty. */
  function Padded(d: DataColumn, k: nat): DataColumn {
    if k == 0 then d else var p := Padded(d, k - 1); p.(lengths := p.lengths + [0])
  }

  lemma {:induction false} LinesOfPadded(lim: Limits, d: DataColumn, k: nat, w: int)
    requires 1 <= w <= lim.width
    ensures Lines(ColumnOf(lim, Padded(d, k)), w) == Lines(ColumnOf(lim, d), w) + k
    ensures Padded(d, k).shortHeader == d.shortHeader && |Padded(d, k).lengths| == |d.lengths| + k
  {
    if k > 0 {
      var p := Padded(d, k - 1);
      LinesOfPadded(lim, d, k - 1, w);
      LinesNeededMeaning(lim, 0, w);
      MoreLines(lim, p.lengths, [0], |p.lengths|, w);
      assert (p.lengths + [0])[|p.lengths|] == 0;
    }
  }

  lemma {:induction false} MoreLines(lim: Limits, a: seq<nat>, b: seq<nat>, k: nat, w: nat)
    requires k <= |a| && w >= 1
    ensures DataLines(lim, a + b, k, w) == DataLines(lim, a, k, w)
  {
    if k > 0 { MoreLines(lim, a, b, k - 1, w); }
  }

  /** Empty values do not change the test on the last column. */
  lemma PaddingKeepsLastOk(lim: Limits, d: DataColumn, k: nat, slack: nat)
    requires d.shortHeader >= 1 && d.shortHeader + slack <= lim.width
    ensures LastOk(ColumnOf(lim, Padded(d, k)), slack) <==> LastOk(ColumnOf(lim, d), slack)
  {
    var c, p := ColumnOf(lim, d), ColumnOf(lim, Padded(d, k));
    forall w | d.shortHeader <= w <= d.shortHeader + slack
      ensures Lines(p, w) == Lines(c, w) + k
    {
      LinesOfPadded(lim, d, k, w);
    }
    LinesOfPadded(lim, d, k, d.shortHeader);
    SameLastOk(c, p, k, slack);
  }

  lemma SameLastOk(c: Column, p: Column, k: nat, slack: nat)
    requires c.minimum == p.minimum
    requires forall w :: c.minimum <= w <= c.minimum + slack ==> Lines(p, w) == Lines(c, w) + k
    ensures LastOk(p, slack) <==> LastOk(c, slack)
  {
  }

  // ---------- tables ----------

  ghost predicate EvenRecords(table: seq<DataColumn>) {
    forall i, j :: 0 <= i < j < |table| ==> |table[i].lengths| == |table[j].lengths|
  }

  /** A table whose widths are searched with this slack, its last column holding `d`'s values and empty ones. */
  ghost predicate SearchedTable(lim: Limits, table: seq<DataColumn>, cols: seq<Column>, slack: nat, d: DataColumn, k: nat) {
    && table != [] && table[|table| - 1] == Padded(d, k) && EvenRecords(table)
    && (forall i :: 0 <= i < |table| ==> table[i].shortHeader >= 1)
    && SearchSetUp(lim, table, cols, slack) && PrintedWidth(NaturalWidths(table)) > lim.width
  }

  /** In every such table the search finds the best widths. */
  ghost predicate SafeInTables(lim: Limits, d: DataColumn, slack: nat) {
    forall table, cols, k, best :: SearchedTable(lim, table, cols, slack, d, k) && BestOfGrid(cols, slack, best) ==>
      Optimal(cols, slack, best)
  }

  lemma SafeIfLastOk(lim: Limits, d: DataColumn, slack: nat, table: seq<DataColumn>, cols: seq<Column>, k: nat, best: seq<int>)
    requires d.shortHeader >= 1 && d.shortHeader + slack <= lim.width && LastOk(ColumnOf(lim, d), slack)
    requires SearchedTable(lim, table, cols, slack, d, k) && BestOfGrid(cols, slack, best)
    ensures Optimal(cols, slack, best)
  {
    var last := |table| - 1;
    PaddingKeepsLastOk(lim, d, k, slack);
    SameColumn(lim, table[last], cols[last], ColumnOf(lim, Padded(d, k)));
    SetUpOptimal(lim, table, cols, slack, best);
  }

  lemma SameColumn(lim: Limits, d: DataColumn, a: Column, b: Column)
    requires Describes(lim, d, a) && Describes(lim, d, b)
    ensures a == b
  {
    assert forall k :: 0 <= k < lim.width ==> a.lineSums[k] == b.lineSums[k];
  }

  // ---------- tables that show the need ----------

  /** `n` values of one length under a short header, with a long header as wide as the whole table. */
  function Uniform(lim: Limits, minimum: nat, length: nat, n: nat): DataColumn {
    DataColumn(minimum, lim.width, seq(n, _ => length))
  }

  lemma {:induction false} UniformSums(lim: Limits, length: nat, n: nat, k: nat, w: nat)
    requires k <= n && w >= 1
    ensures DataLines(lim, seq(n, _ => length), k, w) == k * LinesNeeded(lim, length, w)
  {
    if k > 0 { UniformSums(lim, length, n, k - 1, w); }
  }

  /** A value fills one line at its own length, and more at any other width unless it is empty. */
  lemma LinesOfOne(lim: Limits, length: nat, w: nat)
    requires w >= 1
    ensures length == w || length == 0 ==> LinesNeeded(lim, length, w) == 1
    ensures length != w && length > 0 && lim.lines > 1 ==> LinesNeeded(lim, length, w) >= 2
  {
    LinesNeededMeaning(lim, length, w);
    if length > w {
      var x := CountedLines(lim, length, w);
      assert x >= 2 by { if x < 2 { ProductBound(x, 2, w); } }
    }
  }

  lemma AtLeastTwice(n: nat, lines: nat)
    requires lines >= 2
    ensures n * lines >= 2 * n
  {
    assert n * (lines - 2) >= 0;
  }

  lemma UniformLines(lim: Limits, minimum: nat, length: nat, n: nat, w: int)
    requires 1 <= w <= lim.width
    ensures var c := ColumnOf(lim, Uniform(lim, minimum, length, n));
      && (length == w || length == 0 ==> Lines(c, w) == n)
      && (length != w && length > 0 && lim.lines > 1 ==> Lines(c, w) >= 2 * n)
  {
    LinesOfOne(lim, length, w);
    UniformSums(lim, length, n, n, w);
    if LinesNeeded(lim, length, w) >= 2 { AtLeastTwice(n, LinesNeeded(lim, length, w)); }
  }

  lemma {:induction false} OneLineEach(lim: Limits, lengths: seq<nat>, k: nat, w: nat)
    requires k <= |lengths| && w >= 1 && lim.lines == 1
    ensures DataLines(lim, lengths, k, w) == k
  {
    if k > 0 { OneLineEach(lim, lengths, k - 1, w); }
  }

  /** The short header that leaves this slack beside `d`'s column. */
  function FreeMinimum(lim: Limits, d: DataColumn, slack: nat): int { lim.width - 1 - d.shortHeader - slack }

  ghost predicate RoomForTwo(lim: Limits, d: DataColumn, slack: nat) {
    d.shortHeader >= 1 && FreeMinimum(lim, d, slack) >= 1
  }

  /** Two columns: values of one length beside `d`'s. */
  function TwoColumns(lim: Limits, d: DataColumn, slack: nat, length: nat, k: nat): seq<DataColumn>
    requires FreeMinimum(lim, d, slack) >= 1
  {
    [Uniform(lim, FreeMinimum(lim, d, slack), length, |d.lengths| + k), Padded(d, k)]
  }

  ghost function TwoTables(lim: Limits, d: DataColumn, slack: nat, length: nat, k: nat): seq<Column>
    requires FreeMinimum(lim, d, slack) >= 1
  {
    [ColumnOf(lim, Uniform(lim, FreeMinimum(lim, d, slack), length, |d.lengths| + k)), ColumnOf(lim, Padded(d, k))]
  }

  lemma TwoAreSearched(lim: Limits, d: DataColumn, slack: nat, length: nat, k: nat)
    requires RoomForTwo(lim, d, slack)
    ensures SearchedTable(lim, TwoColumns(lim, d, slack, length, k), TwoTables(lim, d, slack, length, k), slack, d, k)
  {
    var table := TwoColumns(lim, d, slack, length, k);
    LinesOfPadded(lim, d, k, 1);
    var short, natural := ShortHeaders(table), NaturalWidths(table);
    assert Total(short, 1) == short[0] && Total(short, 2) == short[0] + short[1];
    assert Total(natural, 1) == natural[0] && Total(natural, 2) == natural[0] + natural[1];
  }

  /** If the last column rises below its top width, a column of values of one length makes the search miss the optimum. */
  lemma MissBelowTop(lim: Limits, d: DataColumn, slack: nat, u: int, v: int) returns (length: nat, k: nat, w: seq<int>)
    requires RoomForTwo(lim, d, slack) && lim.lines > 1
    requires d.shortHeader <= u <= v < d.shortHeader + slack && Lines(ColumnOf(lim, d), u) < Lines(ColumnOf(lim, d), v)
    ensures Beaten(TwoTables(lim, d, slack, length, k), slack, w)
  {
    var minimum := FreeMinimum(lim, d, slack);
    length, k := minimum + slack - (v - d.shortHeader), Lines(ColumnOf(lim, d), u) + 1;
    w := [length, u];
    var n, last := |d.lengths| + k, ColumnOf(lim, Padded(d, k));
    LinesOfPadded(lim, d, k, u);
    LinesOfPadded(lim, d, k, v);
    PaddedNeeds(lim, d, slack, k);
    BeatenByUniform(lim, minimum, length, n, last, slack, u, v, k);
  }

  lemma BeatenByUniform(lim: Limits, minimum: nat, length: nat, n: nat, last: Column, slack: nat, u: int, v: int, least: nat)
    requires 1 <= minimum && minimum + slack <= lim.width && lim.lines > 1
    requires 1 <= last.minimum && last.minimum + slack <= |last.lineSums| && NeedsAtLeast(last, slack, least)
    requires last.minimum <= u <= v < last.minimum + slack && Lines(last, u) < Lines(last, v)
    requires length == minimum + slack - (v - last.minimum) && n + least > Lines(last, u)
    ensures Beaten([ColumnOf(lim, Uniform(lim, minimum, length, n)), last], slack, [length, u])
  {
    UniformIsDear(lim, minimum, length, n, slack, n + Lines(last, u), least);
    BeatenBelowTop(ColumnOf(lim, Uniform(lim, minimum, length, n)), last, slack, u, v, length, n, least);
  }

  lemma PaddedNeeds(lim: Limits, d: DataColumn, slack: nat, k: nat)
    requires d.shortHeader >= 1 && d.shortHeader + slack <= lim.width
    ensures NeedsAtLeast(ColumnOf(lim, Padded(d, k)), slack, k)
  {
    LinesOfPadded(lim, d, k, d.shortHeader);
    forall r | d.shortHeader <= r <= d.shortHeader + slack
      ensures Lines(ColumnOf(lim, Padded(d, k)), r) >= k
    {
      LinesOfPadded(lim, d, k, r);
    }
  }

  lemma UniformIsDear(lim: Limits, minimum: nat, length: nat, n: nat, slack: nat, bound: int, least: nat)
    requires 1 <= minimum < length <= minimum + slack <= lim.width && lim.lines > 1 && 2 * n + least > bound
    ensures var free := ColumnOf(lim, Uniform(lim, minimum, length, n));
      Lines(free, length) == n && DearBut(free, slack, length, bound, least)
  {
    var free := ColumnOf(lim, Uniform(lim, minimum, length, n));
    UniformLines(lim, minimum, length, n, length);
    forall s | minimum <= s <= minimum + slack && s != length
      ensures Lines(free, s) + least > bound
    {
      UniformLines(lim, minimum, length, n, s);
    }
  }

  lemma EmptyStopsAtMinimum(lim: Limits, minimum: nat, n: nat, slack: nat)
    requires 1 <= minimum && minimum + slack <= lim.width
    ensures forall s :: Stop(ColumnOf(lim, Uniform(lim, minimum, 0, n)), s) && s <= minimum + slack ==> s == minimum
  {
    forall s | Stop(ColumnOf(lim, Uniform(lim, minimum, 0, n)), s) && s <= minimum + slack
      ensures s == minimum
    {
      if s > minimum {
        UniformLines(lim, minimum, 0, n, s);
        UniformLines(lim, minimum, 0, n, s - 1);
      }
    }
  }

  /** If only the top width rises, a column of empty values makes the search miss the width just below it. */
  lemma MissAtTop(lim: Limits, d: DataColumn, slack: nat) returns (w: seq<int>)
    requires RoomForTwo(lim, d, slack) && !LastOk(ColumnOf(lim, d), slack)
    requires NeverRises(ColumnOf(lim, d), d.shortHeader, d.shortHeader + slack - 1)
    ensures Beaten(TwoTables(lim, d, slack, 0, 0), slack, w)
  {
    var minimum, n := FreeMinimum(lim, d, slack), |d.lengths|;
    var free := ColumnOf(lim, Uniform(lim, minimum, 0, n));
    w := [minimum, d.shortHeader + slack - 1];
    EmptyStopsAtMinimum(lim, minimum, n, slack);
    BeatenAtTop(free, ColumnOf(lim, d), slack);
  }

  lemma MissedTable(lim: Limits, d: DataColumn, slack: nat) returns (length: nat, k: nat, w: seq<int>)
    requires RoomForTwo(lim, d, slack) && !LastOk(ColumnOf(lim, d), slack)
    ensures Beaten(TwoTables(lim, d, slack, length, k), slack, w)
  {
    var c := ColumnOf(lim, d);
    if u, v :| c.minimum <= u <= v < c.minimum + slack && Lines(c, u) < Lines(c, v) {
      if lim.lines == 1 {
        OneLineEach(lim, d.lengths, |d.lengths|, u);
        OneLineEach(lim, d.lengths, |d.lengths|, v);
      }
      length, k, w := MissBelowTop(lim, d, slack, u, v);
    } else {
      length, k := 0, 0;
      w := MissAtTop(lim, d, slack);
    }
  }

  /**
   Exactly which values are safe in the last column: the search finds the best widths in every table that
   has them last, with any other columns and any further records for which it is empty, if and only if the
   lines they need pass the test on the last column.
   */
  lemma LastValuesCriterion(lim: Limits, d: DataColumn, slack: nat)
    requires RoomForTwo(lim, d, slack)
    ensures LastOk(ColumnOf(lim, d), slack) <==> SafeInTables(lim, d, slack)
  {
    if LastOk(ColumnOf(lim, d), slack) {
      forall table, cols, k, best | SearchedTable(lim, table, cols, slack, d, k) && BestOfGrid(cols, slack, best)
        ensures Optimal(cols, slack, best)
      {
        SafeIfLastOk(lim, d, slack, table, cols, k, best);
      }
    } else {
      var length, k, w := MissedTable(lim, d, slack);
      var table, cols := TwoColumns(lim, d, slack, length, k), TwoTables(lim, d, slack, length, k);
      TwoAreSearched(lim, d, slack, length, k);
      SetUpWellFormed(lim, table, cols, slack);
      var best := BestExists(cols, slack);
      assert !Optimal(cols, slack, best);
    }
  }
}
