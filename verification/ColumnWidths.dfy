/**
 Column sizing for a printed table (src/atsclnt/atsc.cpp).

 Every column has a minimum width, a maximum useful width and a table saying how
 many lines its data needs at each width.  The search walks an odometer over the
 widths of all columns but the last; the last column takes whatever is left.
 A free column only stops at widths where its line count changes.
 */
module ColumnWidths {

  /** The part of a table column that the search does not change; `lineSums[w - 1]` is for width `w`. */
  datatype Column = Column(minimum: nat, maximum: nat, lineSums: seq<nat>)

  /** Lines used to show all of a column's data at width `w`. */
  function Lines(c: Column, w: int): nat {
    if 1 <= w <= |c.lineSums| then c.lineSums[w - 1] else 0
  }

  /** A search problem: at least one column, and every width the search can try has a line count. */
  ghost predicate WellFormed(cols: seq<Column>, slack: nat) {
    && |cols| >= 1
    && forall i :: 0 <= i < |cols| ==> 1 <= cols[i].minimum && cols[i].minimum + slack <= |cols[i].lineSums|
  }

  function Minimums(cols: seq<Column>): (w: seq<int>)
    ensures |w| == |cols|
    ensures forall i :: 0 <= i < |w| ==> w[i] == cols[i].minimum
  {
    seq(|cols|, i requires 0 <= i < |cols| => cols[i].minimum)
  }

  /** Width handed out beyond the minimums to the first `k` columns. */
  ghost function Used(cols: seq<Column>, w: seq<int>, k: nat): int
    requires k <= |w| <= |cols|
  {
    if k == 0 then 0 else Used(cols, w, k - 1) + w[k - 1] - cols[k - 1].minimum
  }

  /** Lines needed by the first `k` columns. */
  ghost function TotalLines(cols: seq<Column>, w: seq<int>, k: nat): nat
    requires k <= |w| <= |cols|
  {
    if k == 0 then 0 else TotalLines(cols, w, k - 1) + Lines(cols[k - 1], w[k - 1])
  }

  ghost function Cost(cols: seq<Column>, w: seq<int>): nat
    requires |w| == |cols|
  {
    TotalLines(cols, w, |w|)
  }

  ghost predicate AtLeastMinimum(cols: seq<Column>, w: seq<int>) {
    |w| == |cols| && forall i :: 0 <= i < |w| ==> cols[i].minimum <= w[i]
  }

  /** A width vector the table has room for. */
  ghost predicate Fits(cols: seq<Column>, slack: nat, w: seq<int>) {
    AtLeastMinimum(cols, w) && Used(cols, w, |w|) <= slack
  }

  /** The widths at which a free column stops: its minimum, and every change of its line count up to its maximum. */
  ghost predicate Stop(c: Column, u: int) {
    u == c.minimum || (c.minimum < u <= c.maximum && Lines(c, u) != Lines(c, u - 1))
  }

  ghost predicate FreeAtStops(cols: seq<Column>, w: seq<int>)
    requires |w| == |cols|
  {
    forall i :: 0 <= i < |w| - 1 ==> Stop(cols[i], w[i])
  }

  /** Free columns at stops, and the last column taking exactly the rest. */
  ghost predicate OnGrid(cols: seq<Column>, slack: nat, w: seq<int>) {
    && |cols| >= 1
    && AtLeastMinimum(cols, w)
    && Used(cols, w, |w|) == slack
    && FreeAtStops(cols, w)
  }

  ghost predicate Agree(a: seq<int>, b: seq<int>, k: nat)
    requires k <= |a| && k <= |b|
  {
    forall i :: 0 <= i < k ==> a[i] == b[i]
  }

  /** Lexicographic order on the first `k` widths. */
  ghost predicate Before(a: seq<int>, b: seq<int>, k: nat)
    requires k <= |a| && k <= |b|
  {
    exists d :: 0 <= d < k && a[d] < b[d] && Agree(a, b, d)
  }

  // ---------- arithmetic of width vectors ----------

  lemma {:induction false} UsedSamePrefix(cols: seq<Column>, a: seq<int>, b: seq<int>, k: nat)
    requires k <= |a| <= |cols| && k <= |b| <= |cols| && Agree(a, b, k)
    ensures Used(cols, a, k) == Used(cols, b, k)
  {
    if k > 0 { UsedSamePrefix(cols, a, b, k - 1); }
  }

  lemma {:induction false} UsedGrows(cols: seq<Column>, w: seq<int>, j: nat, k: nat)
    requires j <= k <= |w| && AtLeastMinimum(cols, w)
    ensures 0 <= Used(cols, w, j) <= Used(cols, w, k)
    decreases k
  {
    if j < k {
      UsedGrows(cols, w, j, k - 1);
    } else if k > 0 {
      UsedGrows(cols, w, k - 1, k - 1);
    }
  }

  /** A vector that fits never asks for more than the slack in any one column, so it never leaves the line tables. */
  lemma FitsInRange(cols: seq<Column>, slack: nat, w: seq<int>, i: nat)
    requires Fits(cols, slack, w) && i < |w|
    ensures cols[i].minimum <= w[i] <= cols[i].minimum + slack
  {
    UsedGrows(cols, w, i, i);
    UsedGrows(cols, w, i + 1, |w|);
  }

  ghost predicate InTables(cols: seq<Column>, w: seq<int>) {
    |w| == |cols| && forall i :: 0 <= i < |w| ==> 1 <= w[i] <= |cols[i].lineSums|
  }

  lemma FitsInTables(cols: seq<Column>, slack: nat, w: seq<int>)
    requires WellFormed(cols, slack) && Fits(cols, slack, w)
    ensures InTables(cols, w)
  {
    forall i | 0 <= i < |w|
      ensures 1 <= w[i] <= |cols[i].lineSums|
    {
      FitsInRange(cols, slack, w, i);
    }
  }

  lemma {:induction false} UsedOfMinimums(cols: seq<Column>, w: seq<int>, j: nat, k: nat)
    requires j <= k <= |w| <= |cols|
    requires forall i :: j <= i < k ==> w[i] == cols[i].minimum
    ensures Used(cols, w, k) == Used(cols, w, j)
  {
    if j < k { UsedOfMinimums(cols, w, j, k - 1); }
  }

  lemma MinimumsFit(cols: seq<Column>, slack: nat)
    requires |cols| >= 1
    ensures Fits(cols, slack, Minimums(cols))
  {
    UsedOfMinimums(cols, Minimums(cols), 0, |cols|);
  }

  lemma {:induction false} CheaperColumnwise(cols: seq<Column>, a: seq<int>, b: seq<int>, k: nat)
    requires k <= |a| <= |cols| && k <= |b| <= |cols|
    requires forall i :: 0 <= i < k ==> Lines(cols[i], a[i]) <= Lines(cols[i], b[i])
    ensures TotalLines(cols, a, k) <= TotalLines(cols, b, k)
  {
    if k > 0 { CheaperColumnwise(cols, a, b, k - 1); }
  }

  /** Two vectors on the grid with the same free columns are the same vector. */
  lemma GridDeterminedByFree(cols: seq<Column>, slack: nat, a: seq<int>, b: seq<int>)
    requires OnGrid(cols, slack, a) && OnGrid(cols, slack, b) && Agree(a, b, |cols| - 1)
    ensures a == b
  {
    UsedSamePrefix(cols, a, b, |cols| - 1);
  }

  // ---------- lexicographic order ----------

  lemma {:induction false} BeforeTotal(a: seq<int>, b: seq<int>, k: nat)
    requires k <= |a| && k <= |b|
    ensures Before(a, b, k) || Before(b, a, k) || Agree(a, b, k)
  {
    if k > 0 { BeforeTotal(a, b, k - 1); }
  }

  /** Position of a free vector in the odometer's order, as a number in base `base`. */
  ghost function Rank(cols: seq<Column>, w: seq<int>, k: nat, base: nat): int
    requires k <= |w| <= |cols|
  {
    if k == 0 then 0 else Rank(cols, w, k - 1, base) * base + w[k - 1] - cols[k - 1].minimum
  }

  ghost function Power(base: nat, k: nat): nat {
    if k == 0 then 1 else Power(base, k - 1) * base
  }

  ghost predicate DigitsBelow(cols: seq<Column>, w: seq<int>, k: nat, base: nat)
    requires k <= |w| <= |cols|
  {
    forall i :: 0 <= i < k ==> cols[i].minimum <= w[i] < cols[i].minimum + base
  }

  lemma HigherDigitWins(r: int, s: int, base: nat, x: int, y: int)
    requires r < s && x < base && 0 <= y
    ensures r * base + x < s * base + y
    ensures 0 <= r && 0 <= x ==> 0 <= r * base + x
  {
    var d := s - r - 1;
    assert s * base == (r + 1 + d) * base == r * base + base + d * base;
    assert d * base >= 0;
  }

  lemma {:induction false} RankBounded(cols: seq<Column>, w: seq<int>, k: nat, base: nat)
    requires k <= |w| <= |cols| && DigitsBelow(cols, w, k, base)
    ensures 0 <= Rank(cols, w, k, base) < Power(base, k)
  {
    if k > 0 {
      RankBounded(cols, w, k - 1, base);
      var high, digit := Rank(cols, w, k - 1, base), w[k - 1] - cols[k - 1].minimum;
      HigherDigitWins(high, Power(base, k - 1), base, digit, 0);
      assert Rank(cols, w, k, base) == high * base + digit;
    }
  }

  lemma {:induction false} RankSamePrefix(cols: seq<Column>, a: seq<int>, b: seq<int>, k: nat, base: nat)
    requires k <= |a| <= |cols| && k <= |b| <= |cols| && Agree(a, b, k)
    ensures Rank(cols, a, k, base) == Rank(cols, b, k, base)
  {
    if k > 0 { RankSamePrefix(cols, a, b, k - 1, base); }
  }

  lemma {:induction false} RankGrows(cols: seq<Column>, a: seq<int>, b: seq<int>, k: nat, base: nat)
    requires k <= |a| <= |cols| && k <= |b| <= |cols| && Before(a, b, k)
    requires DigitsBelow(cols, a, k, base) && DigitsBelow(cols, b, k, base)
    ensures Rank(cols, a, k, base) < Rank(cols, b, k, base)
  {
    var d :| 0 <= d < k && a[d] < b[d] && Agree(a, b, d);
    if d < k - 1 {
      assert Before(a, b, k - 1);
      RankGrows(cols, a, b, k - 1, base);
      HigherDigitWins(Rank(cols, a, k - 1, base), Rank(cols, b, k - 1, base), base,
                      a[k - 1] - cols[k - 1].minimum, b[k - 1] - cols[k - 1].minimum);
    } else {
      RankSamePrefix(cols, a, b, k - 1, base);
    }
  }

  // ---------- one step of the odometer ----------

  /** What `maxTestWidth` is for: the widest a free column may get, given the columns before it. */
  ghost predicate LimitsMatch(cols: seq<Column>, slack: nat, w: seq<int>, maxTest: seq<int>)
    requires |w| == |cols|
  {
    |maxTest| == |cols| && forall i {:trigger maxTest[i]} :: 0 <= i < |cols| - 1 ==> maxTest[i] == cols[i].minimum + slack - Used(cols, w, i)
  }

  /** No stop above `u` within the limit. */
  ghost predicate MaxedOut(c: Column, u: int, limit: int) {
    forall s :: Stop(c, s) && u < s ==> limit < s
  }

  /** `v` is the first stop above `u`. */
  ghost predicate IsNextStop(c: Column, u: int, v: int) {
    u < v && Stop(c, v) && forall s :: Stop(c, s) && u < s ==> v <= s
  }

  /** A grid vector after `from` first differs at a column that is not maxed out, within that column's limit. */
  lemma LaterOnGrid(cols: seq<Column>, slack: nat, from: seq<int>, maxTest: seq<int>, w: seq<int>, d: nat)
    requires OnGrid(cols, slack, from) && OnGrid(cols, slack, w) && LimitsMatch(cols, slack, from, maxTest)
    requires d < |cols| - 1 && from[d] < w[d] && Agree(from, w, d)
    ensures w[d] <= maxTest[d] && !MaxedOut(cols[d], from[d], maxTest[d])
  {
    UsedSamePrefix(cols, from, w, d);
    UsedGrows(cols, w, d + 1, |w|);
    assert Stop(cols[d], w[d]);
  }

  lemma NoneLater(cols: seq<Column>, slack: nat, from: seq<int>, maxTest: seq<int>, w: seq<int>)
    requires OnGrid(cols, slack, from) && OnGrid(cols, slack, w) && LimitsMatch(cols, slack, from, maxTest)
    requires forall j :: 0 <= j < |cols| - 1 ==> MaxedOut(cols[j], from[j], maxTest[j])
    ensures !Before(from, w, |cols| - 1)
  {
    if d :| 0 <= d < |cols| - 1 && from[d] < w[d] && Agree(from, w, d) {
      LaterOnGrid(cols, slack, from, maxTest, w, d);
    }
  }

  /** `to` is `from` with column `index` at its next stop, the free columns after it back at their minimums. */
  ghost predicate Advanced(cols: seq<Column>, from: seq<int>, index: nat, to: seq<int>) {
    && |from| == |to| == |cols| && index < |cols| - 1
    && Agree(from, to, index)
    && IsNextStop(cols[index], from[index], to[index])
    && forall j :: index < j < |cols| - 1 ==> to[j] == cols[j].minimum
  }

  lemma AdvancedUsed(cols: seq<Column>, slack: nat, from: seq<int>, index: nat, to: seq<int>)
    requires |from| == |to| == |cols| && index < |cols| - 1 && Agree(from, to, index)
    requires forall j :: index < j < |cols| - 1 ==> to[j] == cols[j].minimum
    requires to[index] <= cols[index].minimum + slack - Used(cols, from, index)
    requires to[|cols| - 1] == cols[|cols| - 1].minimum + slack - Used(cols, to, index + 1)
    ensures Used(cols, to, index + 1) <= slack && Used(cols, to, |cols|) == slack
  {
    UsedSamePrefix(cols, from, to, index);
    UsedOfMinimums(cols, to, index + 1, |cols| - 1);
  }

  lemma AdvancedStops(cols: seq<Column>, from: seq<int>, index: nat, to: seq<int>)
    requires AtLeastMinimum(cols, from) && FreeAtStops(cols, from)
    requires Advanced(cols, from, index, to) && to[|cols| - 1] >= cols[|cols| - 1].minimum
    ensures AtLeastMinimum(cols, to) && FreeAtStops(cols, to) && Before(from, to, |cols| - 1)
  {
  }

  lemma AdvancedLimits(cols: seq<Column>, slack: nat, from: seq<int>, limits: seq<int>, index: nat, to: seq<int>, maxTest: seq<int>)
    requires Advanced(cols, from, index, to) && LimitsMatch(cols, slack, from, limits) && |maxTest| == |cols|
    requires forall j {:trigger maxTest[j]} :: 0 <= j < |cols| - 1 ==>
      maxTest[j] == if j <= index then limits[j] else cols[j].minimum + slack - Used(cols, to, index + 1)
    ensures LimitsMatch(cols, slack, to, maxTest)
  {
    forall j | 0 <= j < |cols| - 1
      ensures maxTest[j] == cols[j].minimum + slack - Used(cols, to, j)
    {
      if j <= index {
        UsedSamePrefix(cols, from, to, j);
      } else {
        UsedOfMinimums(cols, to, index + 1, j);
      }
    }
  }

  lemma AdvancedIsNext(cols: seq<Column>, slack: nat, from: seq<int>, maxTest: seq<int>, index: nat, to: seq<int>, w: seq<int>)
    requires OnGrid(cols, slack, from) && LimitsMatch(cols, slack, from, maxTest)
    requires Advanced(cols, from, index, to)
    requires forall j :: index < j < |cols| - 1 ==> MaxedOut(cols[j], from[j], maxTest[j])
    requires OnGrid(cols, slack, w) && Before(from, w, |cols| - 1)
    ensures !Before(w, to, |cols| - 1)
  {
    var d :| 0 <= d < |cols| - 1 && from[d] < w[d] && Agree(from, w, d);
    LaterOnGrid(cols, slack, from, maxTest, w, d);
    assert d <= index;
    assert Stop(cols[d], w[d]);
    if e :| 0 <= e < |cols| - 1 && w[e] < to[e] && Agree(w, to, e) {
      if e < d { assert false; }
    }
  }

  /** Steps a free column from width `u` to the next width with another line count; past `limit` if there is none. */
  method NextStop(c: Column, u: int, limit: int) returns (v: int)
    requires 1 <= c.minimum <= u <= |c.lineSums| && limit <= c.maximum && limit <= |c.lineSums|
    ensures v <= limit ==> IsNextStop(c, u, v)
    ensures v > limit ==> forall s :: Stop(c, s) && u < s ==> limit < s
  {
    var lines := c.lineSums[u - 1];
    v := u;
    while v <= limit && c.lineSums[v - 1] == lines
      invariant u <= v && (v <= limit + 1 || v == u)
      invariant forall x :: u <= x < v ==> Lines(c, x) == lines
    {
      v := v + 1;
    }
    assert forall s :: u < s < v && Stop(c, s) ==> limit < s || Lines(c, s) != Lines(c, s - 1);
  }

  // ---------- the search ----------

  ghost predicate OnGridOrMinimums(cols: seq<Column>, slack: nat, w: seq<int>) {
    w == Minimums(cols) || OnGrid(cols, slack, w)
  }

  /** The search's outcome: a grid vector or the minimums, no worse than any of them. */
  ghost predicate BestOfGrid(cols: seq<Column>, slack: nat, best: seq<int>) {
    && OnGridOrMinimums(cols, slack, best)
    && forall w :: OnGridOrMinimums(cols, slack, w) ==> Cost(cols, best) <= Cost(cols, w)
  }

  /** A grid vector is before, after or equal to the one just looked at. */
  lemma SeenOrOrdered(cols: seq<Column>, slack: nat, seen: seq<int>, w: seq<int>)
    requires OnGrid(cols, slack, seen) && OnGrid(cols, slack, w)
    ensures w == seen || Before(w, seen, |cols| - 1) || Before(seen, w, |cols| - 1)
  {
    BeforeTotal(w, seen, |cols| - 1);
    if Agree(w, seen, |cols| - 1) {
      GridDeterminedByFree(cols, slack, w, seen);
    }
  }

  lemma GridDigits(cols: seq<Column>, slack: nat, w: seq<int>)
    requires OnGrid(cols, slack, w)
    ensures DigitsBelow(cols, w, |cols| - 1, slack + 1)
    ensures 0 <= Rank(cols, w, |cols| - 1, slack + 1) < Power(slack + 1, |cols| - 1)
  {
    forall i | 0 <= i < |cols|
      ensures w[i] <= cols[i].minimum + slack
    {
      FitsInRange(cols, slack, w, i);
    }
    RankBounded(cols, w, |cols| - 1, slack + 1);
  }

  /** All grid vectors ordered before `curr` have been compared with `best`. */
  ghost predicate Covered(cols: seq<Column>, slack: nat, curr: seq<int>, best: seq<int>)
    requires |curr| == |best| == |cols| >= 1
  {
    forall w :: OnGrid(cols, slack, w) && Before(w, curr, |cols| - 1) ==> Cost(cols, best) <= Cost(cols, w)
  }

  lemma CoveredNow(cols: seq<Column>, slack: nat, seen: seq<int>, kept: seq<int>, best: seq<int>)
    requires OnGrid(cols, slack, seen) && |kept| == |best| == |cols| && Covered(cols, slack, seen, kept)
    requires Cost(cols, best) <= Cost(cols, kept) && Cost(cols, best) <= Cost(cols, seen)
    ensures forall w :: OnGrid(cols, slack, w) ==> Before(seen, w, |cols| - 1) || Cost(cols, best) <= Cost(cols, w)
  {
    forall w | OnGrid(cols, slack, w)
      ensures Before(seen, w, |cols| - 1) || Cost(cols, best) <= Cost(cols, w)
    {
      SeenOrOrdered(cols, slack, seen, w);
    }
  }

  /** How far the odometer is from its end. */
  ghost function RanksLeft(cols: seq<Column>, slack: nat, w: seq<int>): int
    requires |w| == |cols| >= 1
  {
    Power(slack + 1, |cols| - 1) - Rank(cols, w, |cols| - 1, slack + 1)
  }

  /** The free columns grow lexicographically, and only finitely often. */
  lemma RankAdvances(cols: seq<Column>, slack: nat, from: seq<int>, to: seq<int>)
    requires OnGrid(cols, slack, from) && OnGrid(cols, slack, to) && Before(from, to, |cols| - 1)
    ensures 0 < RanksLeft(cols, slack, to) < RanksLeft(cols, slack, from)
  {
    GridDigits(cols, slack, from);
    GridDigits(cols, slack, to);
    RankGrows(cols, from, to, |cols| - 1, slack + 1);
  }

  class WidthSearch {
    const cols: seq<Column>
    const slack: nat  // remainingTableWidth
    var curr: seq<int>  // currTestWidth of each column
    var maxTest: seq<int>  // maxTestWidth of each column
    var best: seq<int>  // bestTestWidth of each column

    /** What holds whenever an arrangement is evaluated. */
    ghost predicate Valid()
      reads this
    {
      && WellFormed(cols, slack)
      && OnGrid(cols, slack, curr)
      && LimitsMatch(cols, slack, curr, maxTest)
    }

    constructor (cols: seq<Column>, slack: nat)
      requires WellFormed(cols, slack)
      ensures this.cols == cols && this.slack == slack
      ensures Valid() && best == Minimums(cols)
      ensures Agree(curr, Minimums(cols), |cols| - 1)
    {
      this.cols := cols;
      this.slack := slack;
      var n := |cols|;
      var lows := Minimums(cols);
      this.best := lows;
      this.maxTest := seq(n, i requires 0 <= i < n => cols[i].minimum + slack);
      this.curr := lows[n - 1 := cols[n - 1].minimum + slack];
      new;
      forall i | 0 <= i < n
        ensures Used(cols, curr, i) == 0
      {
        UsedOfMinimums(cols, curr, 0, i);
      }
    }

    /** The backward scan: columns that are maxed out go back to their minimum, the first that is not moves on. */
    method AdvanceFreeColumns() returns (index: int)
      requires Valid()
      modifies this`curr
      ensures -1 <= index < |cols| - 1 && |curr| == |cols|
      ensures forall j :: index < j < |cols| - 1 ==> curr[j] == cols[j].minimum && MaxedOut(cols[j], old(curr)[j], maxTest[j])
      ensures index >= 0 ==> Agree(old(curr), curr, index)
      ensures index >= 0 ==> IsNextStop(cols[index], old(curr)[index], curr[index]) && curr[index] <= maxTest[index]
    {
      index := |cols| - 2;
      while index >= 0
        invariant -1 <= index <= |cols| - 2 && |curr| == |cols| && Agree(old(curr), curr, index + 1)
        invariant forall j :: index < j < |cols| - 1 ==> curr[j] == cols[j].minimum && MaxedOut(cols[j], old(curr)[j], maxTest[j])
      {
        FitsInRange(cols, slack, old(curr), index);
        UsedGrows(cols, old(curr), index, index);
        var col := cols[index];
        var limit := if maxTest[index] < col.maximum then maxTest[index] else col.maximum;
        var v := NextStop(col, curr[index], limit);
        if v <= limit {
          curr := curr[index := v];
          return;
        }
        assert MaxedOut(col, old(curr)[index], maxTest[index]);
        curr := curr[index := col.minimum];
        index := index - 1;
      }
    }

    /** Moves to the next arrangement on the grid, in lexicographic order of the free columns. */
    method IncColumnTestWidths() returns (more: bool)
      requires Valid()
      modifies this`curr, this`maxTest
      ensures more ==> Valid() && Before(old(curr), curr, |cols| - 1)
      ensures more ==> forall w :: OnGrid(cols, slack, w) && Before(old(curr), w, |cols| - 1) ==> !Before(w, curr, |cols| - 1)
      ensures !more ==> forall w :: OnGrid(cols, slack, w) ==> !Before(old(curr), w, |cols| - 1)
    {
      var index := AdvanceFreeColumns();
      if index < 0 {
        forall w | OnGrid(cols, slack, w)
          ensures !Before(old(curr), w, |cols| - 1)
        {
          NoneLater(cols, slack, old(curr), maxTest, w);
        }
        return false;
      }
      DistributeRest(old(curr), index);
      forall w | OnGrid(cols, slack, w) && Before(old(curr), w, |cols| - 1)
        ensures !Before(w, curr, |cols| - 1)
      {
        AdvancedIsNext(cols, slack, old(curr), old(maxTest), index, curr, w);
      }
      return true;
    }

    /** Recomputes the limits after column `index` and hands the last column what is left. */
    method DistributeRest(ghost from: seq<int>, index: nat)
      requires WellFormed(cols, slack) && OnGrid(cols, slack, from) && LimitsMatch(cols, slack, from, maxTest)
      requires Advanced(cols, from, index, curr) && curr[index] <= maxTest[index]
      modifies this`curr, this`maxTest
      ensures Valid() && Advanced(cols, from, index, curr) && Before(from, curr, |cols| - 1)
    {
      ghost var before, limits := curr, maxTest;
      UsedSamePrefix(cols, from, curr, index);
      var used := UsedUpTo(index + 1);
      ResetLimits(index, used);
      curr := curr[|cols| - 1 := cols[|cols| - 1].minimum + slack - used];
      UsedSamePrefix(cols, before, curr, index + 1);
      AdvancedUsed(cols, slack, from, index, curr);
      AdvancedStops(cols, from, index, curr);
      AdvancedLimits(cols, slack, from, limits, index, curr, maxTest);
    }

    method UsedUpTo(k: nat) returns (used: int)
      requires k <= |curr| == |cols|
      ensures used == Used(cols, curr, k)
    {
      used := 0;
      for i := 0 to k
        invariant used == Used(cols, curr, i)
      {
        used := used + curr[i] - cols[i].minimum;
      }
    }

    method ResetLimits(index: nat, used: int)
      requires |maxTest| == |cols| && index < |cols| - 1
      modifies this`maxTest
      ensures |maxTest| == |cols|
      ensures forall j {:trigger maxTest[j]} :: 0 <= j < |cols| - 1 ==> maxTest[j] == if j <= index then old(maxTest)[j] else cols[j].minimum + slack - used
    {
      for i := index + 1 to |cols| - 1
        invariant |maxTest| == |cols|
        invariant forall j {:trigger maxTest[j]} :: 0 <= j < |cols| - 1 ==> maxTest[j] == if index < j < i then cols[j].minimum + slack - used else old(maxTest)[j]
      {
        maxTest := maxTest[i := cols[i].minimum + slack - used];
      }
    }

    /** Keeps the current arrangement if it needs fewer lines than the best one so far. */
    method EvalColumnWidths()
      requires InTables(cols, best) && InTables(cols, curr)
      modifies this`best
      ensures best == if Cost(cols, curr) < Cost(cols, old(best)) then curr else old(best)
    {
      var b, c := best, curr;
      var bestEval, currEval := 0, 0;
      for i := 0 to |cols|
        invariant bestEval == TotalLines(cols, b, i) && currEval == TotalLines(cols, c, i)
      {
        bestEval := bestEval + cols[i].lineSums[b[i] - 1];
        currEval := currEval + cols[i].lineSums[c[i] - 1];
      }
      best := if bestEval > currEval then c else b;
    }

    /** The invariant of the search loop. */
    ghost predicate Searching()
      reads this
    {
      && Valid()
      && OnGridOrMinimums(cols, slack, best) && Fits(cols, slack, best)
      && Cost(cols, best) <= Cost(cols, Minimums(cols))
      && Covered(cols, slack, curr, best)
    }

    /** One round of the search loop: evaluate, then move on. */
    method Round() returns (more: bool)
      requires Searching()
      modifies this
      ensures more ==> Searching() && Before(old(curr), curr, |cols| - 1)
      ensures !more ==> BestOfGrid(cols, slack, best) && Fits(cols, slack, best)
    {
      ghost var kept := best;
      FitsInTables(cols, slack, curr);
      FitsInTables(cols, slack, best);
      EvalColumnWidths();
      CoveredNow(cols, slack, curr, kept, best);
      more := IncColumnTestWidths();
    }
  }

  /**
   The whole search.  It stops, and its answer is a best one among the grid
   vectors and the minimums: no grid vector is skipped and none is imagined.
   */
  method SearchWidths(cols: seq<Column>, slack: nat) returns (best: seq<int>)
    requires WellFormed(cols, slack)
    ensures BestOfGrid(cols, slack, best)
    ensures Fits(cols, slack, best)
  {
    var s := new WidthSearch(cols, slack);
    MinimumsFit(cols, slack);
    assert forall w :: OnGrid(cols, slack, w) ==> !Before(w, s.curr, |cols| - 1);
    var more := true;
    while more
      invariant s.cols == cols && s.slack == slack
      invariant more ==> s.Searching()
      invariant !more ==> BestOfGrid(cols, slack, s.best) && Fits(cols, slack, s.best)
      decreases more, if more then RanksLeft(cols, slack, s.curr) else 0
    {
      ghost var seen := s.curr;
      more := s.Round();
      if more { RankAdvances(cols, slack, seen, s.curr); }
    }
    best := s.best;
  }
}
