/**
 When the pruned width search is exact.  The search only looks at grid vectors, so
 whether it finds the cheapest vector of all depends on the line tables alone.
 */
module WidthOptimality {
  import opened ColumnWidths

  /** No width vector that fits needs fewer lines. */
  ghost predicate Optimal(cols: seq<Column>, slack: nat, best: seq<int>)
    requires |best| == |cols|
  {
    forall w :: Fits(cols, slack, w) ==> Cost(cols, best) <= Cost(cols, w)
  }

  /** The widest stop a free column may have. */
  function Ceiling(c: Column): nat {
    if c.maximum < c.minimum then c.minimum else c.maximum
  }

  /** Widths beyond the maximum are no better than some width up to it. */
  ghost predicate FreeOk(c: Column, slack: nat) {
    forall u :: Ceiling(c) < u <= c.minimum + slack ==> MatchedByStops(c, u)
  }

  ghost predicate MatchedByStops(c: Column, u: int) {
    exists v :: c.minimum <= v <= Ceiling(c) && Lines(c, v) <= Lines(c, u)
  }

  ghost predicate NeverRises(c: Column, lo: int, hi: int) {
    forall u, v :: lo <= u <= v <= hi ==> Lines(c, v) <= Lines(c, u)
  }

  ghost predicate Constant(c: Column, lo: int, hi: int) {
    forall u, v :: lo <= u <= hi && lo <= v <= hi ==> Lines(c, u) == Lines(c, v)
  }

  /** Giving the last column more width never costs lines, or matters only for the very last unit. */
  ghost predicate LastOk(c: Column, slack: nat) {
    NeverRises(c, c.minimum, c.minimum + slack) || Constant(c, c.minimum, c.minimum + slack - 1)
  }

  // ---------- the criterion is enough ----------

  ghost function StopBelow(c: Column, u: int): (s: int)
    requires c.minimum <= u <= Ceiling(c)
    ensures c.minimum <= s <= u && Stop(c, s) && Lines(c, s) == Lines(c, u)
    decreases u
  {
    if Stop(c, u) then u else StopBelow(c, u - 1)
  }

  ghost function Settle(c: Column, slack: nat, u: int): (s: int)
    requires FreeOk(c, slack) && c.minimum <= u <= c.minimum + slack
    ensures c.minimum <= s <= u && Stop(c, s) && Lines(c, s) <= Lines(c, u)
  {
    if u <= Ceiling(c) then StopBelow(c, u) else
      assert MatchedByStops(c, u);
      var v :| c.minimum <= v <= Ceiling(c) && Lines(c, v) <= Lines(c, u);
      StopBelow(c, v)
  }

  ghost predicate AllFreeOk(cols: seq<Column>, slack: nat) {
    forall i :: 0 <= i < |cols| - 1 ==> FreeOk(cols[i], slack)
  }

  lemma {:induction false} UsedColumnwise(cols: seq<Column>, a: seq<int>, b: seq<int>, k: nat)
    requires k <= |a| <= |cols| && k <= |b| <= |cols|
    requires forall i :: 0 <= i < k ==> a[i] <= b[i]
    ensures Used(cols, a, k) <= Used(cols, b, k)
  {
    if k > 0 { UsedColumnwise(cols, a, b, k - 1); }
  }

  /** Every vector that fits has a grid vector below it in the free columns that needs no more lines there. */
  lemma SettleAll(cols: seq<Column>, slack: nat, w: seq<int>) returns (s: seq<int>)
    requires WellFormed(cols, slack) && AllFreeOk(cols, slack) && Fits(cols, slack, w)
    ensures OnGrid(cols, slack, s)
    ensures forall i :: 0 <= i < |cols| - 1 ==> s[i] <= w[i] && Lines(cols[i], s[i]) <= Lines(cols[i], w[i])
    ensures w[|cols| - 1] <= s[|cols| - 1] <= cols[|cols| - 1].minimum + slack
  {
    var n := |cols|;
    forall i | 0 <= i < n ensures cols[i].minimum <= w[i] <= cols[i].minimum + slack {
      FitsInRange(cols, slack, w, i);
    }
    var free := seq(n - 1, i requires 0 <= i < n - 1 => Settle(cols[i], slack, w[i]));
    s := free + [cols[n - 1].minimum + slack - Used(cols, free, n - 1)];
    UsedSamePrefix(cols, free, s, n - 1);
    UsedColumnwise(cols, s, w, n - 1);
    NeverNegative(cols, s, n - 1);
  }

  lemma {:induction false} NeverNegative(cols: seq<Column>, w: seq<int>, k: nat)
    requires k <= |w| <= |cols| && forall i :: 0 <= i < k ==> cols[i].minimum <= w[i]
    ensures Used(cols, w, k) >= 0
    ensures Used(cols, w, k) == 0 ==> forall i :: 0 <= i < k ==> w[i] == cols[i].minimum
  {
    if k > 0 { NeverNegative(cols, w, k - 1); }
  }

  lemma CheaperThanLast(cols: seq<Column>, a: seq<int>, b: seq<int>)
    requires |a| == |b| == |cols| >= 1
    requires forall i :: 0 <= i < |cols| ==> Lines(cols[i], a[i]) <= Lines(cols[i], b[i])
    ensures Cost(cols, a) <= Cost(cols, b)
  {
    CheaperColumnwise(cols, a, b, |cols|);
  }

  /** Some vector the search looks at needs no more lines than `w`. */
  lemma Dominated(cols: seq<Column>, slack: nat, w: seq<int>) returns (v: seq<int>)
    requires WellFormed(cols, slack) && AllFreeOk(cols, slack) && LastOk(cols[|cols| - 1], slack)
    requires Fits(cols, slack, w)
    ensures OnGridOrMinimums(cols, slack, v) && |v| == |cols| && Cost(cols, v) <= Cost(cols, w)
  {
    var n := |cols|;
    var last := cols[n - 1];
    v := SettleAll(cols, slack, w);
    if Lines(last, v[n - 1]) > Lines(last, w[n - 1]) {
      // only the flat-but-for-the-top case is left, and the top means that nothing else was widened
      assert v[n - 1] == last.minimum + slack;
      NeverNegative(cols, v, n - 1);
      v := Minimums(cols);
    }
    CheaperThanLast(cols, v, w);
  }

  lemma SearchIsOptimal(cols: seq<Column>, slack: nat, best: seq<int>)
    requires WellFormed(cols, slack) && AllFreeOk(cols, slack) && LastOk(cols[|cols| - 1], slack)
    requires BestOfGrid(cols, slack, best)
    ensures Optimal(cols, slack, best)
  {
    forall w | Fits(cols, slack, w)
      ensures Cost(cols, best) <= Cost(cols, w)
    {
      var v := Dominated(cols, slack, w);
    }
  }

  // ---------- and no weaker criterion will do ----------

  /** A column whose data needs `tall` lines below width `t` and none from there on. */
  function Cliff(t: nat, tall: nat, size: nat): Column {
    Column(1, size, seq(size, i => if i + 1 < t then tall else 0))
  }

  lemma CostOfTwo(a: Column, b: Column, w: seq<int>)
    requires |w| == 2
    ensures Cost([a, b], w) == Lines(a, w[0]) + Lines(b, w[1])
    ensures Used([a, b], w, 2) == w[0] - a.minimum + w[1] - b.minimum
  {
    assert TotalLines([a, b], w, 1) == TotalLines([a, b], w, 0) + Lines(a, w[0]);
    assert Used([a, b], w, 1) == Used([a, b], w, 0) + w[0] - a.minimum;
  }

  ghost predicate Beaten(cols: seq<Column>, slack: nat, w: seq<int>) {
    && Fits(cols, slack, w)
    && forall best :: OnGridOrMinimums(cols, slack, best) ==> Cost(cols, w) < Cost(cols, best)
  }

  /** The stops of a free column other than `t` are too dear, if the last column needs at least `least` lines anyway. */
  ghost predicate DearBut(free: Column, slack: nat, t: int, bound: int, least: nat) {
    forall s {:trigger Lines(free, s)} :: free.minimum <= s <= free.minimum + slack && s != t && Stop(free, s) ==>
      Lines(free, s) + least > bound
  }

  ghost predicate NeedsAtLeast(last: Column, slack: nat, least: nat) {
    forall r {:trigger Lines(last, r)} :: last.minimum <= r <= last.minimum + slack ==> Lines(last, r) >= least
  }

  /** If the last column rises from `u` to `v` below its top width, a free column that is only cheap where `v` is left makes the search miss the optimum. */
  lemma BeatenBelowTop(free: Column, last: Column, slack: nat, u: int, v: int, t: int, n: nat, least: nat)
    requires WellFormed([free, last], slack) && NeedsAtLeast(last, slack, least)
    requires last.minimum <= u <= v < last.minimum + slack && Lines(last, u) < Lines(last, v)
    requires t == free.minimum + slack - (v - last.minimum) && Lines(free, t) == n
    requires DearBut(free, slack, t, n + Lines(last, u), least)
    ensures Beaten([free, last], slack, [t, u])
  {
    var w := [t, u];
    CostOfTwo(free, last, w);
    forall best | OnGridOrMinimums([free, last], slack, best)
      ensures Cost([free, last], w) < Cost([free, last], best)
    {
      CostOfTwo(free, last, best);
      assert Stop(free, best[0]);
      assert best[0] != t ==> Lines(free, best[0]) + least > n + Lines(last, u);
    }
  }

  /** If only the top width rises, a free column that stops nowhere makes the search miss the width just below it. */
  lemma BeatenAtTop(free: Column, last: Column, slack: nat)
    requires WellFormed([free, last], slack)
    requires NeverRises(last, last.minimum, last.minimum + slack - 1) && !LastOk(last, slack)
    requires forall s :: Stop(free, s) && s <= free.minimum + slack ==> s == free.minimum
    ensures Beaten([free, last], slack, [free.minimum, last.minimum + slack - 1])
  {
    var top := last.minimum + slack;
    var w := [free.minimum, top - 1];
    var a, b :| last.minimum <= a <= top - 1 && last.minimum <= b <= top - 1 && Lines(last, a) > Lines(last, b);
    assert Lines(last, top - 1) < Lines(last, last.minimum);
    var u, v :| last.minimum <= u <= v <= top && Lines(last, u) < Lines(last, v);
    assert v == top && Lines(last, top - 1) < Lines(last, top);
    CostOfTwo(free, last, w);
    forall best | OnGridOrMinimums([free, last], slack, best)
      ensures Cost([free, last], w) < Cost([free, last], best)
    {
      CostOfTwo(free, last, best);
      assert Stop(free, best[0]);
    }
  }

  lemma LastColumnNeeded(last: Column, slack: nat) returns (free: Column, w: seq<int>)
    requires last.minimum >= 1 && last.minimum + slack <= |last.lineSums| && !LastOk(last, slack)
    ensures WellFormed([free, last], slack) && FreeOk(free, slack) && Beaten([free, last], slack, w)
  {
    if u, v :| last.minimum <= u <= v < last.minimum + slack && Lines(last, u) < Lines(last, v) {
      var t := 1 + slack - (v - last.minimum);
      free, w := Cliff(t, Lines(last, u) + 1, 1 + slack), [t, u];
      BeatenBelowTop(free, last, slack, u, v, t, 0, 0);
    } else {
      free, w := Cliff(1, 0, 1 + slack), [1, last.minimum + slack - 1];
      BeatenAtTop(free, last, slack);
    }
  }

  /** If a free column fails the criterion, it makes the search miss the optimum even beside a last column with no data. */
  lemma FreeColumnNeeded(c: Column, slack: nat) returns (last: Column, w: seq<int>)
    requires c.minimum >= 1 && c.minimum + slack <= |c.lineSums| && !FreeOk(c, slack)
    ensures WellFormed([c, last], slack) && LastOk(last, slack) && Beaten([c, last], slack, w)
  {
    last := Cliff(1, 0, 1 + slack);
    var u :| Ceiling(c) < u <= c.minimum + slack && forall v :: c.minimum <= v <= Ceiling(c) ==> Lines(c, v) > Lines(c, u);
    w := [u, 1];
    CostOfTwo(c, last, w);
    forall best | OnGridOrMinimums([c, last], slack, best)
      ensures Cost([c, last], w) < Cost([c, last], best)
    {
      CostOfTwo(c, last, best);
      assert Stop(c, best[0]);
    }
  }

  /** The search finds the optimum beside every choice of free columns. */
  ghost predicate AlwaysOptimalAsLast(last: Column, slack: nat) {
    forall free: seq<Column>, best
      | WellFormed(free + [last], slack) && AllFreeOk(free + [last], slack) && BestOfGrid(free + [last], slack, best)
      :: Optimal(free + [last], slack, best)
  }

  /** The search finds the optimum with `c` as its free column, whatever good column is last. */
  ghost predicate AlwaysOptimalAsFree(c: Column, slack: nat) {
    forall last, best
      | WellFormed([c, last], slack) && LastOk(last, slack) && BestOfGrid([c, last], slack, best)
      :: Optimal([c, last], slack, best)
  }

  lemma {:induction false} BestExists(cols: seq<Column>, slack: nat) returns (best: seq<int>)
    requires WellFormed(cols, slack)
    ensures BestOfGrid(cols, slack, best)
  {
    best := Minimums(cols);
    while !BestOfGrid(cols, slack, best)
      invariant OnGridOrMinimums(cols, slack, best) && |best| == |cols|
      decreases Cost(cols, best)
    {
      var w :| OnGridOrMinimums(cols, slack, w) && Cost(cols, w) < Cost(cols, best);
      best := w;
    }
  }

  /** Exactly which last columns are safe: a test on one column's line table. */
  lemma LastColumnCriterion(last: Column, slack: nat)
    requires last.minimum >= 1 && last.minimum + slack <= |last.lineSums|
    ensures LastOk(last, slack) <==> AlwaysOptimalAsLast(last, slack)
  {
    if LastOk(last, slack) {
      forall free: seq<Column>, best | WellFormed(free + [last], slack) && AllFreeOk(free + [last], slack)
          && BestOfGrid(free + [last], slack, best)
        ensures Optimal(free + [last], slack, best)
      {
        SearchIsOptimal(free + [last], slack, best);
      }
    } else {
      var free, w := LastColumnNeeded(last, slack);
      assert [free, last] == [free] + [last];
      var best := BestExists([free] + [last], slack);
      assert !Optimal([free] + [last], slack, best);
    }
  }

  /** Exactly which free columns are safe. */
  lemma FreeColumnCriterion(c: Column, slack: nat)
    requires c.minimum >= 1 && c.minimum + slack <= |c.lineSums|
    ensures FreeOk(c, slack) <==> AlwaysOptimalAsFree(c, slack)
  {
    if FreeOk(c, slack) {
      forall last, best | WellFormed([c, last], slack) && LastOk(last, slack) && BestOfGrid([c, last], slack, best)
        ensures Optimal([c, last], slack, best)
      {
        SearchIsOptimal([c, last], slack, best);
      }
    } else {
      var last, w := FreeColumnNeeded(c, slack);
      var best := BestExists([c, last], slack);
      assert !Optimal([c, last], slack, best);
    }
  }
}
