/** What a script comes to under any schedule whatever. */
module WorkerOutcome {
  import opened Workers
  import opened WorkerScripts
  import opened WorkerRuns
  import opened WorkerProgress

  ghost predicate NothingFollows(sys: System, s: State) { forall t :: !Next(sys, s, t) }

  /** A run that can go no further. */
  ghost predicate Stuck(sys: System, run: seq<State>) {
    IsRun(sys, run) && NothingFollows(sys, run[|run| - 1])
  }

  /**
   However the laborers are scheduled, after a number of steps known beforehand nothing is left
   to do, and then the servicer has come to the end of its program with the one expected report.
   */
  lemma EveryScheduleEndsWithTheReport(setup: Setup, run: seq<State>)
    requires setup.Valid() && IsRun(setup.Sys(), run)
    ensures |run| - 1 <= Bound(setup.Sys(), setup.N())
    ensures Stuck(setup.Sys(), run) ==>
      Complete(setup, run) && Report(run[|run| - 1]) == BANNER + ExpectedTexts(setup, setup.N()) + "\n"
  {
    var sys := setup.Sys();
    ScriptsAreSound(setup);
    RunsAreBounded(sys, run);
    if Stuck(sys, run) {
      RunInv(sys, run, |run| - 1);
      if run[|run| - 1].pc < |sys.ops| {
        var t := NoDeadlock(sys, run, |run| - 1);
      }
      ReportAsExpected(setup, run);
    }
  }
}
