/** The diff of two result files that ignores the order of fetched rows (bin/rdiff.py). */
module RowDiff {
  import opened StableSort
  import opened TableSorter

  // ---------- what the scanner looks for in a line ----------

  predicate HasAt(s: string, i: nat, sub: string) {
    i + |sub| <= |s| && s[i..i + |sub|] == sub
  }

  predicate Contains(s: string, sub: string) {
    exists i: nat :: i <= |s| && HasAt(s, i, sub)
  }

  function Lower(c: char): char {
    if 'A' <= c <= 'Z' then (c as int - 'A' as int + 'a' as int) as char else c
  }

  function LowerAll(s: string): (r: string)
    ensures |r| == |s|
  {
    seq(|s|, i requires 0 <= i < |s| => Lower(s[i]))
  }

  predicate PlanStarts(line: string) {
    || Contains(line, "PROJECT (") || Contains(line, "INSERT (") || Contains(line, "UPDATE (")
    || Contains(line, "DELETE (") || Contains(line, "MOVE (")
  }

  /** A process prompt at position `i`; the character class also admits a bar. */
  predicate PromptAt(s: string, i: nat) {
    && i + 4 <= |s| && s[i] == '$' && (Lower(s[i + 1]) == 'p' || Lower(s[i + 1]) == 't' || s[i + 1] == '|')
    && '0' <= s[i + 2] <= '9' && s[i + 3] == '>'
  }

  predicate HasPrompt(s: string) { exists i: nat :: i < |s| && PromptAt(s, i) }

  /** ` DESC` and a blank, a tab or a bar. */
  predicate DescAt(s: string, i: nat) {
    i + 6 <= |s| && LowerAll(s[i..i + 5]) == " desc" && (s[i + 5] == '\t' || s[i + 5] == '|' || s[i + 5] == ' ')
  }

  predicate IsqlAt(s: string, i: nat) { i + 5 <= |s| && LowerAll(s[i..i + 5]) == "isql>" }

  predicate IsDesc(s: string) {
    || (exists i: nat :: i < |s| && PromptAt(s, i) && DescAt(s, i + 4))
    || (exists i: nat :: i < |s| && IsqlAt(s, i) && DescAt(s, i + 5))
  }

  predicate IsRule(s: string) { |s| >= 10 && s[..10] == "----------" }

  predicate IsBlank(s: string) {
    forall i :: 0 <= i < |s| ==> s[i] in {' ', '\t', '\n', '\r', 11 as char, 12 as char}
  }

  predicate IsGraph(s: string) { s != [] && s[0] == '|' }

  // ---------- the scanner ----------

  /** `rows`: between a rule and the row count; `plan`: a plan's rule is to come; `desc`: in the answer to a DESC. */
  datatype Scan = Scan(rows: bool, plan: bool, desc: bool)

  const START: Scan := Scan(false, false, false)

  function AfterPlan(st: Scan, line: string): Scan {
    if PlanStarts(line) then st.(plan := true, rows := false) else st
  }

  function AfterDesc(st: Scan, line: string): Scan {
    var d := if (st.desc && HasPrompt(line)) || Contains(line, "iSQL> ") then false else st.desc;
    st.(desc := if IsDesc(line) then true else d)
  }

  /** The state in which a line is judged. */
  function Entered(st: Scan, line: string): Scan { AfterDesc(AfterPlan(st, line), line) }

  function AfterRule(st: Scan, line: string): Scan {
    if !st.desc && IsRule(line) then (if st.plan then st.(plan := false) else st.(rows := true)) else st
  }

  predicate IsRow(st: Scan, line: string) {
    !st.desc && !IsRule(line) && st.rows && !IsBlank(line) && !IsGraph(line)
  }

  function Left(st: Scan, line: string): Scan {
    var r := AfterRule(st, line);
    if Contains(line, " selected.") then r.(rows := false) else r
  }

  /** The rows of a file from line number `n` on, with their line numbers. */
  function Extracted(lines: seq<string>, st: Scan, n: nat): seq<(nat, string)> {
    if lines == [] then [] else
      var e := Entered(st, lines[0]);
      var rest := Extracted(lines[1..], Left(e, lines[0]), n + 1);
      if IsRow(e, lines[0]) then [(n, lines[0])] + rest else rest
  }

  function TextOf(row: (nat, string)): string { row.1 }

  function TextOrder(): Order<string> { (a: string, b: string) => CompareText(a, b) <= 0 }

  function RowTextOrder(): Order<(nat, string)> { (a: (nat, string), b: (nat, string)) => CompareText(a.1, b.1) <= 0 }

  /** The texts of the extracted rows. */
  function Texts(lines: seq<string>): seq<string> { View(Extracted(lines, START, 1), TextOf) }

  // ---------- order does not matter ----------

  lemma TextOrderIsTotal()
    ensures TotalPreorder(TextOrder()) && TotalPreorder(RowTextOrder())
    ensures forall a, b :: Same(TextOrder(), a, b) <==> a == b
  {
    forall a, b
      ensures TextOrder()(a, b) || TextOrder()(b, a)
      ensures Same(TextOrder(), a, b) <==> a == b
    {
      CompareTextLaws(a, b, a);
    }
    forall a, b, c | TextOrder()(a, b) && TextOrder()(b, c)
      ensures TextOrder()(a, c)
    {
      CompareTextLaws(a, b, c);
    }
    forall a, b
      ensures RowTextOrder()(a, b) || RowTextOrder()(b, a)
    {
      CompareTextLaws(a.1, b.1, a.1);
    }
    forall a, b, c | RowTextOrder()(a, b) && RowTextOrder()(b, c)
      ensures RowTextOrder()(a, c)
    {
      CompareTextLaws(a.1, b.1, c.1);
    }
  }

  /** Under an order that ties only equal elements, a class is one element repeated. */
  lemma {:induction false} ClassIsRepetition(s: seq<string>, k: string)
    requires forall a, b :: Same(TextOrder(), a, b) <==> a == b
    ensures Class(s, TextOrder(), k) == seq(multiset(s)[k], _ => k)
  {
    if s != [] {
      ClassIsRepetition(s[1..], k);
      assert s == [s[0]] + s[1..];
      assert multiset(s) == multiset{s[0]} + multiset(s[1..]);
    }
  }

  lemma SortedTextsAgree(a: seq<string>, b: seq<string>)
    ensures StableSorted(a, TextOrder()) == StableSorted(b, TextOrder()) <==> multiset(a) == multiset(b)
  {
    var le := TextOrder();
    TextOrderIsTotal();
    StableSortedMeetsSpec(a, le);
    StableSortedMeetsSpec(b, le);
    StableSortPermutes(a, StableSorted(a, le), le);
    StableSortPermutes(b, StableSorted(b, le), le);
    if multiset(a) == multiset(b) {
      forall k
        ensures Class(a, le, k) == Class(StableSorted(b, le), le, k)
      {
        ClassIsRepetition(a, k);
        ClassIsRepetition(b, k);
        assert Class(b, le, k) == Class(StableSorted(b, le), le, k);
      }
      StableSortIsUnique(a, StableSorted(b, le), le);
    }
  }

  /** Sorting rows by text and reading the texts is sorting the texts. */
  lemma TextsOfSorted(rows: seq<(nat, string)>)
    ensures View(StableSorted(rows, RowTextOrder()), TextOf) == StableSorted(View(rows, TextOf), TextOrder())
  {
    TextOrderIsTotal();
    SortCommutes(rows, TextOf, RowTextOrder(), TextOrder());
  }

  // ---------- the program ----------

  datatype Verdict = Pass | Fail

  /** A file's lines as `readline` returns them: none is empty, and the end of the file reads as an empty line. */
  ghost predicate IsFile(lines: seq<string>) { forall i :: 0 <= i < |lines| ==> lines[i] != [] }

  /** The tests of one turn of the loop, up to the end-of-file test. */
  method ScanLine(st: Scan, input: string) returns (next: Scan, isRow: bool)
    ensures next == AfterRule(Entered(st, input), input) && isRow == IsRow(Entered(st, input), input)
  {
    next, isRow := st, false;
    if PlanStarts(input) {
      next := next.(plan := true, rows := false);
    }
    if (next.desc && HasPrompt(input)) || Contains(input, "iSQL> ") {
      next := next.(desc := false);
    }
    if IsDesc(input) {
      next := next.(desc := true);
    }
    if !next.desc {
      if IsRule(input) {
        next := if next.plan then next.(plan := false) else next.(rows := true);
      } else {
        isRow := next.rows && !IsBlank(input) && !IsGraph(input);
      }
    }
  }

  lemma ExtractedNext(lines: seq<string>, i: nat, st: Scan)
    requires i < |lines|
    ensures var e := Entered(st, lines[i]);
      var rest := Extracted(lines[i + 1..], Left(e, lines[i]), i + 2);
      Extracted(lines[i..], st, i + 1) == if IsRow(e, lines[i]) then [(i + 1, lines[i])] + rest else rest
  {
  }

  /** After one more line, what is gathered and what is still to come are together the same. */
  lemma RowsNext(lines: seq<string>, i: nat, st: Scan, rows: seq<(nat, string)>)
    requires i < |lines|
    ensures var e := Entered(st, lines[i]);
      (if IsRow(e, lines[i]) then rows + [(i + 1, lines[i])] else rows) + Extracted(lines[i + 1..], Left(e, lines[i]), i + 2)
      == rows + Extracted(lines[i..], st, i + 1)
  {
    ExtractedNext(lines, i, st);
    var e := Entered(st, lines[i]);
    var rest := Extracted(lines[i + 1..], Left(e, lines[i]), i + 2);
    assert rows + ([(i + 1, lines[i])] + rest) == rows + [(i + 1, lines[i])] + rest;
  }

  lemma NoneLeft(lines: seq<string>, st: Scan, lineno: nat, rows: seq<(nat, string)>)
    ensures rows + Extracted(lines[|lines|..], st, lineno) == rows
  {
    assert lines[|lines|..] == [] && rows + [] == rows;
  }

  method Load(lines: seq<string>) returns (result: seq<(nat, string)>)
    requires IsFile(lines)
    ensures result == StableSorted(Extracted(lines, START, 1), RowTextOrder())
  {
    var st := START;
    var rows: seq<(nat, string)> := [];
    var lineno: nat := 0;
    while true
      invariant lineno <= |lines|
      invariant rows + Extracted(lines[lineno..], st, lineno + 1) == Extracted(lines, START, 1)
      decreases |lines| - lineno
    {
      var input := if lineno < |lines| then lines[lineno] else "";
      if lineno < |lines| { RowsNext(lines, lineno, st, rows); } else { NoneLeft(lines, st, lineno + 1, rows); }
      var next, isRow := ScanLine(st, input);
      lineno := lineno + 1;
      if isRow {
        rows := rows + [(lineno, input)];
      }
      if input == "" { break; }
      st := if Contains(input, " selected.") then next.(rows := false) else next;
    }
    result := StableSorted(rows, RowTextOrder());
  }

  /** The verdict depends only on which rows the two files hold, and how often, not on their order. */
  method Compare(left: seq<string>, right: seq<string>) returns (v: Verdict)
    requires IsFile(left) && IsFile(right)
    ensures v == Pass <==> multiset(Texts(left)) == multiset(Texts(right))
  {
    var a := Load(left);
    var b := Load(right);
    TextsOfSorted(Extracted(left, START, 1));
    TextsOfSorted(Extracted(right, START, 1));
    SortedTextsAgree(Texts(left), Texts(right));
    v := if View(a, TextOf) == View(b, TextOf) then Pass else Fail;
  }
}
