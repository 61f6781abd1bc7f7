/**
 The sizing part of `printTable` (src/atsclnt/atsc.cpp): line tables from the data,
 minimum and maximum widths from the headers, and the widths finally printed.
 */
module TableSizing {
  import opened ColumnWidths
  import opened WidthOptimality

  type pos = n: int | n >= 1 witness 1

  /** `gMaxTableWidth` and `gMaxLinesPerTableRecord`; the environment may replace the defaults. */
  datatype Limits = Limits(width: nat, lines: pos)

  const DEFAULTS: Limits := Limits(79, 20)

  // ---------- the line formula ----------

  /**
   Lines counted for one value of `len` characters at width `w`.  A value shorter
   than the column is counted as one line and then as one more for its remainder.
   */
  function LinesNeeded(lim: Limits, len: nat, w: nat): (lines: nat)
    requires w >= 1
    ensures 1 <= lines <= lim.lines
  {
    var full := if len / w > 1 then len / w else 1;
    var all := if len % w != 0 then full + 1 else full;
    if all < lim.lines then all else lim.lines
  }

  lemma ProductBound(q: int, r: int, w: nat)
    requires q < r
    ensures (q + 1) * w <= r * w
  {
  }

  lemma ProductMono(a: int, b: int, c: int, d: int)
    requires 0 <= a <= b && 0 <= c <= d
    ensures a * c <= b * d
  {
  }

  /** `x` lines of width `w` hold `len` characters, and `x - 1` do not. */
  ghost predicate FillsExactly(len: nat, w: nat, x: int) {
    (x - 1) * w < len <= x * w
  }

  lemma CountedLines(lim: Limits, len: nat, w: nat) returns (x: int)
    requires 1 <= w <= len
    ensures FillsExactly(len, w, x) && LinesNeeded(lim, len, w) == if x < lim.lines then x else lim.lines
  {
    assert len == len / w * w + len % w;
    assert len / w >= 1 by {
      if len / w < 1 { ProductBound(len / w, 1, w); }
    }
    x := if len % w != 0 then len / w + 1 else len / w;
    assert (len / w + 1) * w == len / w * w + w && (len / w - 1) * w == len / w * w - w;
  }

  /** What the formula means: the true number of lines (capped), except that a non-empty value shorter than the width counts as two. */
  lemma LinesNeededMeaning(lim: Limits, len: nat, w: nat)
    requires w >= 1
    ensures len == 0 ==> LinesNeeded(lim, len, w) == 1
    ensures 0 < len < w ==> LinesNeeded(lim, len, w) == if lim.lines == 1 then 1 else 2
    ensures len == w ==> LinesNeeded(lim, len, w) == 1
    ensures w <= len ==> exists x :: FillsExactly(len, w, x) && LinesNeeded(lim, len, w) == if x < lim.lines then x else lim.lines
  {
    if w <= len {
      var x := CountedLines(lim, len, w);
      if len == w {
        assert len / w == 1 && len % w == 0 by { assert len == 1 * w + 0; }
      }
    } else {
      assert len / w == 0 && len % w == len;
    }
  }

  /** Up to its own length a value never needs more lines in a wider column. */
  lemma WiderUpToLength(lim: Limits, len: nat, u: nat, v: nat)
    requires 1 <= u <= v <= len
    ensures LinesNeeded(lim, len, v) <= LinesNeeded(lim, len, u)
  {
    var x := CountedLines(lim, len, u);
    var y := CountedLines(lim, len, v);
    if x < y {
      assert x >= 1 by { if x < 1 { ProductMono(0, -x, 0, u); } }
      ProductMono(x, y - 1, u, v);
    }
  }

  ghost predicate ValueNeverRises(lim: Limits, len: nat, lo: nat, hi: nat)
    requires lo >= 1
  {
    forall u, v :: lo <= u <= v <= hi ==> LinesNeeded(lim, len, v) <= LinesNeeded(lim, len, u)
  }

  /** The line count of one value is non-increasing on a range of widths exactly when its length is not inside the range (or only one line is ever counted). */
  lemma ValueNeverRisesExactly(lim: Limits, len: nat, lo: nat, hi: nat)
    requires lo >= 1
    ensures ValueNeverRises(lim, len, lo, hi) <==> !(lo <= len < hi) || lim.lines == 1
  {
    if lo <= len < hi && lim.lines > 1 {
      LinesNeededMeaning(lim, len, len);
      LinesNeededMeaning(lim, len, len + 1);
      assert LinesNeeded(lim, len, len + 1) > LinesNeeded(lim, len, len);
    } else {
      forall u, v | lo <= u <= v <= hi
        ensures LinesNeeded(lim, len, v) <= LinesNeeded(lim, len, u)
      {
        if lim.lines == 1 {
          assert LinesNeeded(lim, len, v) == 1;
        } else if v <= len {
          WiderUpToLength(lim, len, u, v);
        } else {
          LinesNeededMeaning(lim, len, u);
          LinesNeededMeaning(lim, len, v);
        }
      }
    }
  }

  /** No width beyond all the data is better than the width that just holds it. */
  lemma BeyondDataNoGain(lim: Limits, len: nat, u: nat, v: nat)
    requires len <= u <= v && 1 <= u
    ensures LinesNeeded(lim, len, u) <= LinesNeeded(lim, len, v)
  {
  }

  // ---------- line tables ----------

  /** Lines for the first `k` values at width `w`. */
  ghost function DataLines(lim: Limits, lengths: seq<nat>, k: nat, w: nat): nat
    requires k <= |lengths| && w >= 1
  {
    if k == 0 then 0 else DataLines(lim, lengths, k - 1, w) + LinesNeeded(lim, lengths[k - 1], w)
  }

  /** `cwLineSums`: the lines of all values, for every width up to the table's. */
  ghost predicate IsLineTable(lim: Limits, lengths: seq<nat>, sums: seq<nat>) {
    |sums| == lim.width && forall i :: 0 <= i < lim.width ==> sums[i] == DataLines(lim, lengths, |lengths|, i + 1)
  }

  method BuildLineSums(lim: Limits, lengths: seq<nat>) returns (sums: seq<nat>)
    ensures IsLineTable(lim, lengths, sums)
  {
    sums := seq(lim.width, _ => 0);
    for k := 0 to |lengths|
      invariant |sums| == lim.width
      invariant forall i :: 0 <= i < lim.width ==> sums[i] == DataLines(lim, lengths, k, i + 1)
    {
      for i := 0 to lim.width
        invariant |sums| == lim.width
        invariant forall j :: 0 <= j < lim.width ==> sums[j] == DataLines(lim, lengths, if j < i then k + 1 else k, j + 1)
      {
        sums := sums[i := sums[i] + LinesNeeded(lim, lengths[k], i + 1)];
      }
    }
  }

  lemma {:induction false} DataLinesColumnwise(lim: Limits, lengths: seq<nat>, k: nat, u: nat, v: nat)
    requires k <= |lengths| && u >= 1 && v >= 1
    requires forall i :: 0 <= i < k ==> LinesNeeded(lim, lengths[i], u) <= LinesNeeded(lim, lengths[i], v)
    ensures DataLines(lim, lengths, k, u) <= DataLines(lim, lengths, k, v)
  {
    if k > 0 { DataLinesColumnwise(lim, lengths, k - 1, u, v); }
  }

  // ---------- columns as printTable sees them ----------

  /** A column to print: header lengths and the lengths of its values. */
  datatype DataColumn = DataColumn(shortHeader: nat, longHeader: nat, lengths: seq<nat>)

  function Longest(lengths: seq<nat>, k: nat): (m: nat)
    requires k <= |lengths|
    ensures forall i :: 0 <= i < k ==> lengths[i] <= m
    ensures m == 0 || exists i :: 0 <= i < k && lengths[i] == m
  {
    if k == 0 then 0 else
      var m := Longest(lengths, k - 1);
      if m < lengths[k - 1] then lengths[k - 1] else m
  }

  /** Neither the long header nor any value is cut. */
  predicate Uncut(d: DataColumn, w: int) {
    d.longHeader <= w && forall i :: 0 <= i < |d.lengths| ==> d.lengths[i] <= w
  }

  /** The least width at which nothing is cut. */
  function NaturalWidth(d: DataColumn): (m: nat)
    ensures Uncut(d, m) && forall w: int :: Uncut(d, w) ==> m <= w
  {
    var m := Longest(d.lengths, |d.lengths|);
    if d.longHeader > m then d.longHeader else m
  }

  ghost predicate Describes(lim: Limits, d: DataColumn, c: Column) {
    c.minimum == d.shortHeader && c.maximum == NaturalWidth(d) && IsLineTable(lim, d.lengths, c.lineSums)
  }

  lemma LinesOfData(lim: Limits, d: DataColumn, c: Column, u: int, v: int)
    requires Describes(lim, d, c) && 1 <= u <= lim.width && 1 <= v <= lim.width
    requires forall i :: 0 <= i < |d.lengths| ==> LinesNeeded(lim, d.lengths[i], u) <= LinesNeeded(lim, d.lengths[i], v)
    ensures Lines(c, u) <= Lines(c, v)
  {
    DataLinesColumnwise(lim, d.lengths, |d.lengths|, u, v);
  }

  /** With tables built from data, a free column can never make the search miss the optimum. */
  lemma DataColumnFreeOk(lim: Limits, d: DataColumn, c: Column, slack: nat)
    requires Describes(lim, d, c) && 1 <= c.minimum && c.minimum + slack <= lim.width
    ensures FreeOk(c, slack)
  {
    forall u | Ceiling(c) < u <= c.minimum + slack
      ensures MatchedByStops(c, u)
    {
      var v := Ceiling(c);
      forall i | 0 <= i < |d.lengths|
        ensures LinesNeeded(lim, d.lengths[i], v) <= LinesNeeded(lim, d.lengths[i], u)
      {
        BeyondDataNoGain(lim, d.lengths[i], v, u);
      }
      LinesOfData(lim, d, c, v, u);
    }
  }

  /** A last column none of whose values has a length among the widths it may get is safe. */
  lemma DataColumnLastOk(lim: Limits, d: DataColumn, c: Column, slack: nat)
    requires Describes(lim, d, c) && 1 <= c.minimum && c.minimum + slack <= lim.width
    requires lim.lines == 1 || forall i :: 0 <= i < |d.lengths| ==> !(c.minimum <= d.lengths[i] < c.minimum + slack)
    ensures LastOk(c, slack)
  {
    forall u, v | c.minimum <= u <= v <= c.minimum + slack
      ensures Lines(c, v) <= Lines(c, u)
    {
      forall i | 0 <= i < |d.lengths|
        ensures LinesNeeded(lim, d.lengths[i], v) <= LinesNeeded(lim, d.lengths[i], u)
      {
        ValueNeverRisesExactly(lim, d.lengths[i], c.minimum, c.minimum + slack);
      }
      LinesOfData(lim, d, c, v, u);
    }
  }

  // ---------- the printed table ----------

  ghost function Total(w: seq<int>, k: nat): int
    requires k <= |w|
  {
    if k == 0 then 0 else Total(w, k - 1) + w[k - 1]
  }

  function ShortHeaders(table: seq<DataColumn>): (w: seq<int>)
    ensures |w| == |table| && forall i :: 0 <= i < |w| ==> w[i] == table[i].shortHeader
  {
    seq(|table|, i requires 0 <= i < |table| => table[i].shortHeader)
  }

  function NaturalWidths(table: seq<DataColumn>): (w: seq<int>)
    ensures |w| == |table| && forall i :: 0 <= i < |w| ==> w[i] == NaturalWidth(table[i])
  {
    seq(|table|, i requires 0 <= i < |table| => NaturalWidth(table[i]))
  }

  lemma {:induction false} TotalGrows(a: seq<int>, b: seq<int>, k: nat)
    requires k <= |a| && k <= |b| && forall i :: 0 <= i < k ==> a[i] <= b[i]
    ensures Total(a, k) <= Total(b, k)
  {
    if k > 0 { TotalGrows(a, b, k - 1); }
  }

  ghost predicate UncutAll(table: seq<DataColumn>, w: seq<int>) {
    |w| == |table| && forall i :: 0 <= i < |table| ==> Uncut(table[i], w[i])
  }

  /** No column can be narrower without cutting something. */
  ghost predicate LeastUncut(table: seq<DataColumn>, w: seq<int>) {
    UncutAll(table, w) && forall i, u: int {:trigger Uncut(table[i], u)} :: 0 <= i < |table| && Uncut(table[i], u) ==> w[i] <= u
  }

  /** Some widths at which nothing is cut make a line of at most this many characters. */
  ghost predicate FitsUncut(table: seq<DataColumn>, limit: int) {
    exists w: seq<int> :: UncutAll(table, w) && PrintedWidth(w) <= limit
  }

  lemma NaturalIsLeast(table: seq<DataColumn>, limit: int)
    ensures LeastUncut(table, NaturalWidths(table))
    ensures FitsUncut(table, limit) <==> PrintedWidth(NaturalWidths(table)) <= limit
  {
    var natural := NaturalWidths(table);
    assert UncutAll(table, natural);
    if FitsUncut(table, limit) {
      var w: seq<int> :| UncutAll(table, w) && PrintedWidth(w) <= limit;
      forall i | 0 <= i < |table| ensures natural[i] <= w[i] {
        assert Uncut(table[i], w[i]);
      }
      TotalGrows(natural, w, |w|);
    }
  }

  /** The header line up to column `k`: each header filled with spaces to the width of its column, one space between. */
  ghost function HeaderLine(headers: seq<string>, w: seq<int>, k: nat): string
    requires k <= |headers| == |w| && forall i :: 0 <= i < |w| ==> |headers[i]| <= w[i]
  {
    if k == 0 then ""
    else HeaderLine(headers, w, k - 1) + (if k == 1 then "" else " ") + headers[k - 1] + seq(w[k - 1] - |headers[k - 1]|, _ => ' ')
  }

  lemma {:induction false} HeaderLineLength(headers: seq<string>, w: seq<int>, k: nat)
    requires 1 <= k <= |headers| == |w| && forall i :: 0 <= i < |w| ==> |headers[i]| <= w[i]
    ensures |HeaderLine(headers, w, k)| == Total(w, k) + k - 1
  {
    if k > 1 {
      HeaderLineLength(headers, w, k - 1);
    } else {
      assert HeaderLine(headers, w, 0) == "" && Total(w, 0) == 0;
    }
  }

  /** A printed line is exactly as long as `PrintedWidth` says. */
  lemma PrintedLineLength(headers: seq<string>, w: seq<int>)
    requires 1 <= |headers| == |w| && forall i :: 0 <= i < |w| ==> |headers[i]| <= w[i]
    ensures |HeaderLine(headers, w, |w|)| == PrintedWidth(w)
  {
    HeaderLineLength(headers, w, |w|);
  }

  /** Characters of a printed line: the columns and the one-space separators between them. */
  ghost function PrintedWidth(w: seq<int>): int {
    Total(w, |w|) + |w| - 1
  }

  ghost predicate DescribesAll(lim: Limits, table: seq<DataColumn>, cols: seq<Column>) {
    |cols| == |table| && forall i :: 0 <= i < |table| ==> Describes(lim, table[i], cols[i])
  }

  lemma {:induction false} UsedIsTotal(lim: Limits, table: seq<DataColumn>, cols: seq<Column>, w: seq<int>, k: nat)
    requires DescribesAll(lim, table, cols) && |w| == |table| && k <= |w|
    ensures Used(cols, w, k) == Total(w, k) - Total(ShortHeaders(table), k)
  {
    if k > 0 { UsedIsTotal(lim, table, cols, w, k - 1); }
  }

  /** No header is longer than the table of all short headers. */
  lemma {:induction false} TotalCovers(w: seq<int>, i: nat, k: nat)
    requires i < k <= |w| && forall j :: 0 <= j < k ==> w[j] >= 1
    ensures Total(w, k) >= w[i] + k - 1
  {
    if k - 1 == i {
      if i > 0 { TotalCovers(w, i - 1, k - 1); }
    } else {
      TotalCovers(w, i, k - 1);
    }
  }

  method DescribeColumn(lim: Limits, d: DataColumn) returns (c: Column)
    ensures Describes(lim, d, c)
  {
    var sums := BuildLineSums(lim, d.lengths);
    c := Column(d.shortHeader, NaturalWidth(d), sums);
  }

  method DescribeColumns(lim: Limits, table: seq<DataColumn>) returns (cols: seq<Column>, minimumWidth: int, maximumWidth: int)
    requires |table| >= 1
    ensures DescribesAll(lim, table, cols)
    ensures minimumWidth == PrintedWidth(ShortHeaders(table)) && maximumWidth == PrintedWidth(NaturalWidths(table))
  {
    cols := [];
    minimumWidth := |table| - 1;
    maximumWidth := minimumWidth;
    for i := 0 to |table|
      invariant |cols| == i && forall j :: 0 <= j < i ==> Describes(lim, table[j], cols[j])
      invariant minimumWidth == |table| - 1 + Total(ShortHeaders(table), i)
      invariant maximumWidth == |table| - 1 + Total(NaturalWidths(table), i)
    {
      var c := DescribeColumn(lim, table[i]);
      cols := cols + [c];
      minimumWidth := minimumWidth + table[i].shortHeader;
      maximumWidth := maximumWidth + NaturalWidth(table[i]);
    }
  }

  /** `long` says which columns show their long headers. `OutOfTable`: the search has looked a width up that no line table has. */
  datatype Sizing = TooWide | OutOfTable | Sized(widths: seq<int>, long: seq<bool>)

  /** What the search is given when the natural widths do not fit. */
  ghost predicate SearchSetUp(lim: Limits, table: seq<DataColumn>, cols: seq<Column>, slack: nat) {
    DescribesAll(lim, table, cols) && slack == lim.width - PrintedWidth(ShortHeaders(table))
  }

  predicate HasHeaders(table: seq<DataColumn>) { forall i :: 0 <= i < |table| ==> table[i].shortHeader >= 1 }

  lemma SetUpWellFormed(lim: Limits, table: seq<DataColumn>, cols: seq<Column>, slack: nat)
    requires |table| >= 1 && SearchSetUp(lim, table, cols, slack) && HasHeaders(table)
    ensures WellFormed(cols, slack)
    ensures forall i :: 0 <= i < |cols| ==> cols[i].minimum + slack <= lim.width
  {
    forall i | 0 <= i < |cols|
      ensures 1 <= cols[i].minimum && cols[i].minimum + slack <= lim.width
    {
      TotalCovers(ShortHeaders(table), i, |table|);
    }
  }

  /**
   The search stays within the line tables exactly when no short header is empty: with one, its first
   evaluation, of the minimums, already looks up width 0; without, every vector that fits is in range.
   */
  lemma LookupsInRangeExactly(lim: Limits, table: seq<DataColumn>, cols: seq<Column>, slack: nat)
    requires |table| >= 1 && SearchSetUp(lim, table, cols, slack)
    ensures InTables(cols, Minimums(cols)) <==> HasHeaders(table)
    ensures (forall w :: Fits(cols, slack, w) ==> InTables(cols, w)) <==> HasHeaders(table)
  {
    MinimumsFit(cols, slack);
    if HasHeaders(table) {
      SetUpWellFormed(lim, table, cols, slack);
      forall w | Fits(cols, slack, w) ensures InTables(cols, w) { FitsInTables(cols, slack, w); }
    } else {
      var i :| 0 <= i < |table| && table[i].shortHeader < 1;
      assert Describes(lim, table[i], cols[i]) && Minimums(cols)[i] == 0;
    }
  }

  /** Whether the first evaluation, of the minimums, stays within the line tables. */
  method StartsInRange(cols: seq<Column>) returns (ok: bool)
    ensures ok <==> InTables(cols, Minimums(cols))
  {
    for i := 0 to |cols|
      invariant forall j :: 0 <= j < i ==> 1 <= cols[j].minimum <= |cols[j].lineSums|
    {
      if !(1 <= cols[i].minimum <= |cols[i].lineSums|) {
        assert Minimums(cols)[i] == cols[i].minimum;
        return false;
      }
    }
    ok := true;
  }

  /** The values of the last column have lengths the search treats correctly. */
  ghost predicate LastColumnSafe(lim: Limits, d: DataColumn, slack: nat) {
    lim.lines == 1 || forall i :: 0 <= i < |d.lengths| ==> !(d.shortHeader <= d.lengths[i] < d.shortHeader + slack)
  }

  /** What the search promises of the widths it settles on. */
  ghost predicate Searched(lim: Limits, table: seq<DataColumn>, cols: seq<Column>, slack: nat, w: seq<int>)
    requires |table| >= 1
  {
    SearchSetUp(lim, table, cols, slack) ==>
      && BestOfGrid(cols, slack, w)
      && (LastOk(cols[|cols| - 1], slack) ==> Optimal(cols, slack, w))
      && (LastColumnSafe(lim, table[|table| - 1], slack) ==> LastOk(cols[|cols| - 1], slack))
  }

  lemma SetUpOptimal(lim: Limits, table: seq<DataColumn>, cols: seq<Column>, slack: nat, best: seq<int>)
    requires |table| >= 1 && SearchSetUp(lim, table, cols, slack) && HasHeaders(table)
    requires LastOk(cols[|cols| - 1], slack) && BestOfGrid(cols, slack, best)
    ensures Optimal(cols, slack, best)
  {
    SetUpWellFormed(lim, table, cols, slack);
    forall i | 0 <= i < |cols| - 1
      ensures FreeOk(cols[i], slack)
    {
      DataColumnFreeOk(lim, table[i], cols[i], slack);
    }
    SearchIsOptimal(cols, slack, best);
  }

  lemma SearchPromises(lim: Limits, table: seq<DataColumn>, cols: seq<Column>, slack: nat, best: seq<int>, cs: seq<Column>, sl: nat)
    requires |table| >= 1 && SearchSetUp(lim, table, cols, slack) && HasHeaders(table) && BestOfGrid(cols, slack, best)
    ensures Searched(lim, table, cs, sl, best)
  {
    if SearchSetUp(lim, table, cs, sl) {
      SameColumns(lim, table, cols, cs);
      SearchPromisesOf(lim, table, cols, slack, best);
    }
  }

  lemma SearchPromisesOf(lim: Limits, table: seq<DataColumn>, cols: seq<Column>, slack: nat, best: seq<int>)
    requires |table| >= 1 && SearchSetUp(lim, table, cols, slack) && HasHeaders(table) && BestOfGrid(cols, slack, best)
    ensures Searched(lim, table, cols, slack, best)
  {
    SetUpWellFormed(lim, table, cols, slack);
    if LastOk(cols[|cols| - 1], slack) { SetUpOptimal(lim, table, cols, slack, best); }
    if LastColumnSafe(lim, table[|table| - 1], slack) { DataColumnLastOk(lim, table[|table| - 1], cols[|cols| - 1], slack); }
  }

  /** The vector the search settles on, printed with its headers. */
  lemma SearchedIsPrintable(lim: Limits, table: seq<DataColumn>, cols: seq<Column>, slack: nat, best: seq<int>)
    requires |table| >= 1 && SearchSetUp(lim, table, cols, slack) && Fits(cols, slack, best)
    ensures |best| == |table| && PrintedWidth(best) <= lim.width
    ensures forall i :: 0 <= i < |table| ==> table[i].shortHeader <= best[i]
  {
    UsedIsTotal(lim, table, cols, best, |best|);
    forall i | 0 <= i < |table|
      ensures table[i].shortHeader <= best[i]
    {
      assert Describes(lim, table[i], cols[i]);
    }
  }

  /** A column shows its long header exactly when that fits, and its header fits either way. */
  ghost predicate HeadersChosen(table: seq<DataColumn>, r: Sizing)
    requires r.Sized?
  {
    |r.widths| == |r.long| == |table| && forall i :: 0 <= i < |table| ==>
      (r.long[i] <==> table[i].longHeader <= r.widths[i]) && (r.long[i] || table[i].shortHeader <= r.widths[i])
  }

  /** The loop that falls back to short headers. */
  method ChooseHeaders(table: seq<DataColumn>, widths: seq<int>) returns (r: Sizing)
    requires |widths| == |table| && forall i :: 0 <= i < |table| ==> table[i].shortHeader <= widths[i]
    ensures r.Sized? && r.widths == widths && HeadersChosen(table, r)
  {
    var long: seq<bool> := [];
    for i := 0 to |table|
      invariant |long| == i && forall j :: 0 <= j < i ==> (long[j] <==> table[j].longHeader <= widths[j])
    {
      long := long + [!(widths[i] < table[i].longHeader)];
    }
    r := Sized(widths, long);
  }

  /** The search, when there are line tables for what it looks up. */
  method SearchTable(lim: Limits, table: seq<DataColumn>, cols: seq<Column>, slack: nat) returns (r: Sizing)
    requires |table| >= 1 && SearchSetUp(lim, table, cols, slack)
    ensures !r.TooWide? && (r.OutOfTable? <==> !HasHeaders(table))
    ensures r.Sized? ==> HeadersChosen(table, r) && PrintedWidth(r.widths) <= lim.width
    ensures r.Sized? ==> forall cs, sl :: Searched(lim, table, cs, sl, r.widths)
  {
    LookupsInRangeExactly(lim, table, cols, slack);
    var ok := StartsInRange(cols);
    if !ok {
      return OutOfTable;
    }
    SetUpWellFormed(lim, table, cols, slack);
    var best := SearchWidths(cols, slack);
    SearchedIsPrintable(lim, table, cols, slack, best);
    forall cs, sl ensures Searched(lim, table, cs, sl, best) {
      SearchPromises(lim, table, cols, slack, best, cs, sl);
    }
    r := ChooseHeaders(table, best);
  }

  /**
   The widths printed.  A table is refused exactly when even its short headers do not fit. If it can be
   printed without cutting anything it is, and no column is wider than that takes; otherwise widths are
   searched, which an empty short header leads out of the line tables. Every header fits its column.
   */
  method SizeColumns(lim: Limits, table: seq<DataColumn>) returns (r: Sizing)
    requires |table| >= 1
    ensures r.TooWide? <==> PrintedWidth(ShortHeaders(table)) > lim.width
    ensures r.OutOfTable? <==>
      PrintedWidth(ShortHeaders(table)) <= lim.width && !FitsUncut(table, lim.width) && !HasHeaders(table)
    ensures r.Sized? ==> HeadersChosen(table, r) && PrintedWidth(r.widths) <= lim.width
    ensures r.Sized? && FitsUncut(table, lim.width) ==> LeastUncut(table, r.widths)
    ensures r.Sized? && !FitsUncut(table, lim.width) ==>
      forall cols, slack :: Searched(lim, table, cols, slack, r.widths)
  {
    var cols, minimumWidth, maximumWidth := DescribeColumns(lim, table);
    if minimumWidth > lim.width {
      return TooWide;
    }
    NaturalIsLeast(table, lim.width);
    if maximumWidth <= lim.width {
      return Sized(NaturalWidths(table), seq(|table|, _ => true));
    }
    r := SearchTable(lim, table, cols, lim.width - minimumWidth);
  }

  lemma SameColumns(lim: Limits, table: seq<DataColumn>, a: seq<Column>, b: seq<Column>)
    requires DescribesAll(lim, table, a) && DescribesAll(lim, table, b)
    ensures a == b
  {
    forall i | 0 <= i < |table|
      ensures a[i] == b[i]
    {
      assert Describes(lim, table[i], a[i]) && Describes(lim, table[i], b[i]);
      assert forall k :: 0 <= k < lim.width ==> a[i].lineSums[k] == b[i].lineSums[k];
    }
  }

  // ---------- a table the search gets wrong ----------

  /** The line table of a column with a single value. */
  function SingleValueTable(lim: Limits, len: nat): (sums: seq<nat>)
    ensures IsLineTable(lim, [len], sums)
    ensures forall w :: 1 <= w <= lim.width ==> Lines(Column(1, len, sums), w) == LinesNeeded(lim, len, w)
  {
    assert forall w :: w >= 1 ==> DataLines(lim, [len], 1, w) == DataLines(lim, [len], 0, w) + LinesNeeded(lim, len, w);
    seq(lim.width, i requires 0 <= i < lim.width => LinesNeeded(lim, len, i + 1))
  }

  const LONG: Column := Column(1, 100, SingleValueTable(DEFAULTS, 100))
  const SHORT: Column := Column(1, 5, SingleValueTable(DEFAULTS, 5))

  lemma LongValueLines(w: nat)
    requires 1 <= w <= 77
    ensures Lines(LONG, w) >= 2
    ensures w == 1 ==> Lines(LONG, w) == DEFAULTS.lines
    ensures 72 <= w <= 73 ==> Lines(LONG, w) == 2
  {
  }

  lemma ShortValueLines(w: nat)
    requires 1 <= w <= 77
    ensures Lines(SHORT, w) == 1 <==> w == 5
  {
  }

  /**
   One record with values of 100 and 5 characters: widths 73 and 5 need three lines,
   but the search stops the first column at 50 and every vector it looks at needs four.
   */
  lemma ShortValueMissed(best: seq<int>)
    requires BestOfGrid([LONG, SHORT], 76, best)
    ensures DescribesAll(DEFAULTS, [DataColumn(1, 1, [100]), DataColumn(1, 1, [5])], [LONG, SHORT])
    ensures WellFormed([LONG, SHORT], 76) && Fits([LONG, SHORT], 76, [73, 5])
    ensures Cost([LONG, SHORT], [73, 5]) == 3 && Cost([LONG, SHORT], best) >= 4
  {
    assert NaturalWidth(DataColumn(1, 1, [100])) == 100 && NaturalWidth(DataColumn(1, 1, [5])) == 5;
    CostOfTwo(LONG, SHORT, [73, 5]);
    LongValueLines(73);
    LongValueLines(72);
    ShortValueLines(5);
    CostOfTwo(LONG, SHORT, best);
    assert Stop(LONG, best[0]);
    LongValueLines(best[0]);
    ShortValueLines(best[1]);
  }
}
