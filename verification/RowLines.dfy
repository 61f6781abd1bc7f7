/**
 Which lines of a result file are rows: by line numbers, without following the scanner's flags
 from one line to the next.
 */
module RowLines {
  import opened Basics
  import opened StableSort
  import opened RowDiff

  /** A DESC at line `j`, and no prompt since, up to line `i`. */
  ghost predicate DescSince(lines: seq<string>, j: nat, i: nat)
    requires i < |lines|
  {
    j <= i && IsDesc(lines[j]) && forall k :: j < k <= i ==> !HasPrompt(lines[k]) && !Contains(lines[k], "iSQL> ")
  }

  /** Line `i` belongs to the answer of a DESC. */
  ghost predicate InDesc(lines: seq<string>, i: nat)
    requires i < |lines|
  {
    exists j: nat :: DescSince(lines, j, i)
  }

  /** A rule outside the answer of a DESC. */
  ghost predicate Rules(lines: seq<string>, i: nat)
    requires i < |lines|
  {
    IsRule(lines[i]) && !InDesc(lines, i)
  }

  /** A plan began at line `j`, and its rule has not come before line `i`. */
  ghost predicate PlanSince(lines: seq<string>, j: nat, i: nat)
    requires i < |lines|
  {
    j <= i && PlanStarts(lines[j]) && forall k :: j <= k < i ==> !Rules(lines, k)
  }

  ghost predicate InPlan(lines: seq<string>, i: nat)
    requires i < |lines|
  {
    exists j: nat :: PlanSince(lines, j, i)
  }

  /** A rule that is not a plan's at line `j`; since then, up to line `i`, no row count and no plan. */
  ghost predicate RowsSince(lines: seq<string>, j: nat, i: nat)
    requires i < |lines|
  {
    && j < i && Rules(lines, j) && !InPlan(lines, j)
    && (forall k :: j <= k < i ==> !Contains(lines[k], " selected."))
    && (forall k :: j < k <= i ==> !PlanStarts(lines[k]))
  }

  ghost predicate InRows(lines: seq<string>, i: nat)
    requires i < |lines|
  {
    exists j: nat :: RowsSince(lines, j, i)
  }

  ghost predicate Row(lines: seq<string>, i: nat)
    requires i < |lines|
  {
    InRows(lines, i) && !InDesc(lines, i) && !IsRule(lines[i]) && !IsBlank(lines[i]) && !IsGraph(lines[i])
  }

  // ---------- the scanner's flags say the same ----------

  /** What the flags stand for when line `i` is judged. */
  ghost predicate Judges(lines: seq<string>, i: nat, e: Scan)
    requires i < |lines|
  {
    (e.desc <==> InDesc(lines, i)) && (e.plan <==> InPlan(lines, i)) && (e.rows <==> InRows(lines, i))
  }

  lemma DescNext(lines: seq<string>, i: nat)
    requires i < |lines|
    ensures InDesc(lines, i) <==>
      IsDesc(lines[i]) || (i > 0 && InDesc(lines, i - 1) && !HasPrompt(lines[i]) && !Contains(lines[i], "iSQL> "))
  {
    if IsDesc(lines[i]) { assert DescSince(lines, i, i); }
    if i > 0 && !HasPrompt(lines[i]) && !Contains(lines[i], "iSQL> ") {
      var h := i - 1;
      if j: nat :| DescSince(lines, j, h) { assert DescSince(lines, j, i); }
    }
    if j: nat :| DescSince(lines, j, i) {
      if j < i { assert DescSince(lines, j, i - 1); }
    }
  }

  lemma PlanNext(lines: seq<string>, i: nat)
    requires i < |lines|
    ensures InPlan(lines, i) <==> PlanStarts(lines[i]) || (i > 0 && InPlan(lines, i - 1) && !Rules(lines, i - 1))
  {
    if PlanStarts(lines[i]) { assert PlanSince(lines, i, i); }
    if i > 0 && !Rules(lines, i - 1) {
      var h := i - 1;
      if j: nat :| PlanSince(lines, j, h) { assert PlanSince(lines, j, i); }
    }
    if j: nat :| PlanSince(lines, j, i) {
      if j < i { assert PlanSince(lines, j, i - 1); }
    }
  }

  /** What begins or goes on with row lines. */
  ghost predicate Begins(lines: seq<string>, i: nat)
    requires i < |lines|
  {
    Rules(lines, i) && !InPlan(lines, i)
  }

  lemma RowsGoOn(lines: seq<string>, i: nat)
    requires 0 < i < |lines| && !PlanStarts(lines[i]) && !Contains(lines[i - 1], " selected.")
    ensures InRows(lines, i - 1) || Begins(lines, i - 1) ==> InRows(lines, i)
  {
    var h := i - 1;
    if j: nat :| RowsSince(lines, j, h) { assert RowsSince(lines, j, i); }
    if Begins(lines, i - 1) { assert RowsSince(lines, i - 1, i); }
  }

  lemma RowsCameFrom(lines: seq<string>, i: nat)
    requires i < |lines| && InRows(lines, i)
    ensures i > 0 && !PlanStarts(lines[i]) && !Contains(lines[i - 1], " selected.") && (InRows(lines, i - 1) || Begins(lines, i - 1))
  {
    var j: nat :| RowsSince(lines, j, i);
    if j < i - 1 { assert RowsSince(lines, j, i - 1); }
  }

  lemma RowsNext(lines: seq<string>, i: nat)
    requires i < |lines|
    ensures InRows(lines, i) <==>
      && i > 0 && !PlanStarts(lines[i]) && !Contains(lines[i - 1], " selected.")
      && (InRows(lines, i - 1) || (Rules(lines, i - 1) && !InPlan(lines, i - 1)))
  {
    if InRows(lines, i) { RowsCameFrom(lines, i); }
    if i > 0 && !PlanStarts(lines[i]) && !Contains(lines[i - 1], " selected.") { RowsGoOn(lines, i); }
  }

  lemma FirstJudged(lines: seq<string>)
    requires lines != []
    ensures Judges(lines, 0, Entered(START, lines[0]))
  {
    DescNext(lines, 0);
    PlanNext(lines, 0);
    RowsNext(lines, 0);
  }

  lemma NextJudged(lines: seq<string>, i: nat, e: Scan)
    requires i + 1 < |lines| && Judges(lines, i, e)
    ensures Judges(lines, i + 1, Entered(Left(e, lines[i]), lines[i + 1]))
  {
    DescNext(lines, i + 1);
    PlanNext(lines, i + 1);
    RowsNext(lines, i + 1);
  }

  // ---------- the rows of a file ----------

  /** Row line `n` as the scanner extracts it; line numbers count from 1. */
  ghost predicate IsRowOf(lines: seq<string>, n: nat, row: (nat, string)) {
    n < |lines| && Row(lines, n) && row == (n + 1, lines[n])
  }

  ghost predicate AreRows(lines: seq<string>, i: nat, rows: seq<(nat, string)>) {
    forall k :: 0 <= k < |rows| ==> rows[k].0 > i && IsRowOf(lines, rows[k].0 - 1, rows[k])
  }

  ghost predicate InOrder(rows: seq<(nat, string)>) { Increasing(Numbers(rows)) }

  ghost predicate AllRows(lines: seq<string>, i: nat, rows: seq<(nat, string)>) {
    forall n, row {:trigger IsRowOf(lines, n, row)} :: n >= i && IsRowOf(lines, n, row) ==> row in rows
  }

  /** The rows of a file from line `i` on, in order. */
  ghost predicate RowsFrom(lines: seq<string>, i: nat, rows: seq<(nat, string)>) {
    AreRows(lines, i, rows) && InOrder(rows) && AllRows(lines, i, rows)
  }

  lemma AreRowsCons(lines: seq<string>, i: nat, first: (nat, string), rows: seq<(nat, string)>)
    requires IsRowOf(lines, i, first) && AreRows(lines, i + 1, rows)
    ensures AreRows(lines, i, [first] + rows)
  {
  }

  lemma InOrderCons(i: nat, first: (nat, string), rows: seq<(nat, string)>)
    requires first.0 == i + 1 && InOrder(rows) && forall k :: 0 <= k < |rows| ==> rows[k].0 > i + 1
    ensures InOrder([first] + rows)
  {
  }

  lemma AllRowsCons(lines: seq<string>, i: nat, first: (nat, string), rows: seq<(nat, string)>)
    requires IsRowOf(lines, i, first) && AllRows(lines, i + 1, rows)
    ensures AllRows(lines, i, [first] + rows)
  {
    forall n, row | n >= i && IsRowOf(lines, n, row) ensures row in [first] + rows {
      if n == i { assert row == first; } else { assert row in rows; }
    }
  }

  lemma RowsCons(lines: seq<string>, i: nat, rows: seq<(nat, string)>)
    requires i < |lines| && RowsFrom(lines, i + 1, rows)
    ensures RowsFrom(lines, i, if Row(lines, i) then [(i + 1, lines[i])] + rows else rows)
  {
    if Row(lines, i) {
      var first := (i + 1, lines[i]);
      assert IsRowOf(lines, i, first);
      AreRowsCons(lines, i, first, rows);
      InOrderCons(i, first, rows);
      AllRowsCons(lines, i, first, rows);
    } else {
      NoRowHere(lines, i, rows);
    }
  }

  lemma NoRowHere(lines: seq<string>, i: nat, rows: seq<(nat, string)>)
    requires i < |lines| && !Row(lines, i) && RowsFrom(lines, i + 1, rows)
    ensures RowsFrom(lines, i, rows)
  {
    forall n, row | n >= i && IsRowOf(lines, n, row) ensures row in rows {
      assert n != i;
    }
  }

  lemma {:induction false} ExtractedFrom(lines: seq<string>, i: nat, st: Scan)
    requires i < |lines| && Judges(lines, i, Entered(st, lines[i]))
    ensures RowsFrom(lines, i, Extracted(lines[i..], st, i + 1))
    decreases |lines| - i
  {
    var e := Entered(st, lines[i]);
    ExtractedNext(lines, i, st);
    if i + 1 < |lines| {
      NextJudged(lines, i, e);
      ExtractedFrom(lines, i + 1, Left(e, lines[i]));
    } else {
      assert lines[i + 1..] == [];
    }
    RowsCons(lines, i, Extracted(lines[i + 1..], Left(e, lines[i]), i + 2));
  }

  /** The scanner extracts exactly the rows of the file, in order, each with its line number. */
  lemma ExtractedExactly(lines: seq<string>)
    ensures RowsFrom(lines, 0, Extracted(lines, START, 1))
  {
    if lines != [] {
      FirstJudged(lines);
      ExtractedFrom(lines, 0, START);
      assert lines[0..] == lines;
    }
  }

  function Numbers(rows: seq<(nat, string)>): (ns: seq<nat>)
    ensures |ns| == |rows| && forall k :: 0 <= k < |ns| ==> ns[k] == rows[k].0
  {
    seq(|rows|, k requires 0 <= k < |rows| => rows[k].0)
  }

  lemma NumberOf(rows: seq<(nat, string)>, n: nat) returns (k: nat)
    requires n in Numbers(rows)
    ensures k < |rows| && rows[k].0 == n
  {
    k :| 0 <= k < |rows| && Numbers(rows)[k] == n;
  }

  lemma NumberIn(rows: seq<(nat, string)>, row: (nat, string))
    requires row in rows
    ensures row.0 in Numbers(rows)
  {
    var k :| 0 <= k < |rows| && rows[k] == row;
    assert Numbers(rows)[k] == row.0;
  }

  lemma SameMembers(lines: seq<string>, a: seq<(nat, string)>, b: seq<(nat, string)>, n: nat)
    requires AreRows(lines, 0, a) && AllRows(lines, 0, b) && n in Numbers(a)
    ensures n in Numbers(b)
  {
    var k := NumberOf(a, n);
    assert IsRowOf(lines, n - 1, a[k]);
    NumberIn(b, a[k]);
  }

  lemma SameRow(lines: seq<string>, x: (nat, string), y: (nat, string))
    requires x.0 == y.0 > 0 && IsRowOf(lines, x.0 - 1, x) && IsRowOf(lines, y.0 - 1, y)
    ensures x == y
  {
  }

  lemma RowsAreUnique(lines: seq<string>, a: seq<(nat, string)>, b: seq<(nat, string)>)
    requires RowsFrom(lines, 0, a) && RowsFrom(lines, 0, b)
    ensures a == b
  {
    forall n ensures n in Numbers(a) <==> n in Numbers(b) {
      if n in Numbers(a) { SameMembers(lines, a, b, n); }
      if n in Numbers(b) { SameMembers(lines, b, a, n); }
    }
    SameNumbers(Numbers(a), Numbers(b));
    forall k | 0 <= k < |a| ensures a[k] == b[k] {
      assert Numbers(a)[k] == Numbers(b)[k];
      SameRow(lines, a[k], b[k]);
    }
  }

  /** What two files are compared by: the texts of their row lines. */
  lemma ComparedByRows(lines: seq<string>, rows: seq<(nat, string)>)
    requires RowsFrom(lines, 0, rows)
    ensures Texts(lines) == View(rows, TextOf)
  {
    ExtractedExactly(lines);
    RowsAreUnique(lines, rows, Extracted(lines, START, 1));
  }
}
