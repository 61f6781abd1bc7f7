/** The verdict of a normal test case, whatever the schedule. */
module RunVerdicts {
  import opened ArtFlags
  import W = Workers
  import opened WorkerScripts
  import opened WorkerRuns
  import opened WorkerTexts

  /** `runParseTable`'s verdict after a run in normal mode; `expected` is the content of the expected file. */
  function VerdictOf(ignore: bool, fatal: bool, end: W.State, expected: string): Verdict {
    Judge(TestKind.Normal, ignore, NO_FLAGS, fatal, Report(end) == expected)
  }

  /**
   A test case that is not ignored passes under one schedule exactly when it passes under every schedule, and
   that is when the expected file is what its script and the replies tell; otherwise it fails, or is fatal if the flag is set.
   */
  lemma NormalVerdictExactly(setup: Setup, run: seq<W.State>, y: Story, fatal: bool, expected: string)
    requires setup.Valid() && Complete(setup, run) && IsStory(setup, y)
    ensures var v, told := VerdictOf(false, fatal, run[|run| - 1], expected), BANNER + Told(setup, y, setup.N()) + "\n";
      && (v == Pass <==> expected == told)
      && (v == Verdict.Fatal <==> expected != told && fatal)
      && (v == Fail <==> expected != told && !fatal)
    ensures VerdictOf(true, fatal, run[|run| - 1], expected) == Pass
  {
    ReportMeaning(setup, run, y);
    VerdictExactly(TestKind.Normal, false, NO_FLAGS, fatal, Report(run[|run| - 1]) == expected);
    VerdictExactly(TestKind.Normal, true, NO_FLAGS, fatal, Report(run[|run| - 1]) == expected);
  }

  /** Two schedules of one script, with the same replies. */
  lemma PassIgnoresScheduling(setup: Setup, a: seq<W.State>, b: seq<W.State>, ignore: bool, fatalA: bool, fatalB: bool, expected: string)
    requires setup.Valid() && Complete(setup, a) && Complete(setup, b)
    ensures VerdictOf(ignore, fatalA, a[|a| - 1], expected) == Pass <==> VerdictOf(ignore, fatalB, b[|b| - 1], expected) == Pass
  {
    var y := StoryExists(setup);
    NormalVerdictExactly(setup, a, y, fatalA, expected);
    NormalVerdictExactly(setup, b, y, fatalB, expected);
  }
}
