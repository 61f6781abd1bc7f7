# Models and proofs for the test harness

The repository is a database test harness: a client that loads suites of test cases and runs them, a
service that executes one test script with several worker threads, viewers for the results, a diff for
result files, a pool allocator and a fault-injection library. This project models the parts of it that
carry an algorithm or a protocol, and proves what they keep, compute and guarantee.

Everything is in plain modules, one file each (`Basics` holds what several share):

- **Table column widths** (`ColumnWidths`, `WidthOptimality`, `TableSizing`, `TableOptimality`): the client's pruned,
  odometer-like search for column widths as a class whose methods update the widths in place; the exact
  conditions under which the pruning never misses the optimum, for line tables and for the values of real tables.
- **Suites** (`CaseData`, `SuiteLoader`, `SuiteLines`, `CaseMerge`, `CaseOrigins`): the recursive loader with its three member
  variables instead of a stack, proved to be lexical scoping over the suite tree; which lines of a file make that tree,
  by line numbers; the merge of a user's cases into the shared list.
- **Workers** (`Commands`, `Workers`, `WorkerScripts`, `WorkerRuns`, `WorkerBarriers`, `WorkerProgress`,
  `WorkerOutcome`, `WorkerTexts`, `RunVerdicts`, `Laborers`): one servicer feeding its laborers through staged and live queues, as a transition system
  with arbitrary interleaving; conservation, barriers, absence of deadlock, a bound on every run, and a
  report that does not depend on scheduling, told command by command from the script and the replies; the verdict
  it leads to; and the two classes whose critical sections are the steps.
- **Recovery-test flags** (`ArtFlags`, `ArtLaborers`): the three flags that laborers share without a lock.
- **Recovery schedule** (`RecoverySchedule`, `RecoveryRotation`): the client's round-robin over recovery points.
- **Sorting** (`StableSort`, `TableSorter`, `TdxSort`, `SortersAgree`, `RowDiff`, `RowLines`, `RowWords`): the viewers'
  ping-pong merge sort and flat bubble sort, both proved equal to the one stable sort, and the order-insensitive diff
  with the lines it takes for rows.
- **Memory** (`PoolSpec`, `PoolSafety`, `PoolCheckpoints`, `UttMemory`, `CheckedMemory`): both builds of the
  memory manager. Line 45 of `src/ats2/uttMemory.cpp` selects the one-`malloc`-per-request build
  (`CheckedMemory`); the other files model the pooled build that it replaces.
- **Fault injection** (`LimitPoint`, `LimitPointHits`, `LimitPointLeaving`, `SharedPoint`, `WasteRing`): the countdowns of
  the limit point, with and without threads leaving it, and the circular list of wasted memory.

Where the code does not do what its comments or its purpose promise, the model follows the code, one lemma
gives an input that shows it, and another the exact condition under which the promise is met:

- A value shorter than its column is counted as two lines, so line counts can rise with width
  (exactly when: `TableSizing.ValueNeverRisesExactly`), and the search can miss the best widths
  (`TableSizing.ShortValueMissed`). Values in the last column are safe in every table exactly when the lines they
  need pass one test (`TableOptimality.LastValuesCriterion`); all other columns are always safe
  (`TableSizing.DataColumnFreeOk`). For line tables of any origin the tests are exact as well
  (`WidthOptimality.LastColumnCriterion`, `WidthOptimality.FreeColumnCriterion`).
- The comment in `mergeCase` says that a first unmatched local case goes to the front; the code puts it at the
  end of the shared cases. A local case whose shared name an earlier local case brought in replaces that case
  (`CaseMerge.ClashLosesACase`). For all lists the merge loses nothing exactly when no step finds an entry that
  already holds a local case (`CaseOrigins.SurviveExactly`). Without a clash of names it never does, and only then if
  no shared entry bears a local name (`CaseMerge.MergeKeepsAllExactly`); otherwise a clash can be harmless
  (`CaseOrigins.ClashMayBeHarmless`).
- A skip mark on the root suite is not handed to its cases (`SuiteLoader.RootSkipIsNotInherited`); a case below it runs
  exactly when nothing on its path is commented out or skipped and its tag admits the host (`SuiteLoader.LoadedCasesRunByPath`).
- `Laborer::sync` can return while one command is still executing (`WorkerBarriers.SyncReturnsInFlight`); what it waited
  for is executed exactly but for the command in flight (`WorkerBarriers.SyncLeavesAtMostOne`).
- An oversized request after a rewind of the pool can be placed beyond its block (`PoolSafety.OversizedAfterRewind`),
  exactly when neither of the next two kept blocks has room (`PoolSafety.AllocIsSafe`), and every first piece of a pool
  is, exactly when its block size is below a header (`PoolSafety.FirstPieceFitsExactly`).
- A checkpoint of the pool that has been gone back past is still accepted, and cuts through a piece
  (`PoolCheckpoints.StaleCheckpointIsAccepted`). The pieces live at a checkpoint stay live throughout exactly if the
  session never goes back past it (`PoolCheckpoints.CheckpointKeepsExactly`).
- In the compiled build of the pool, a request made while entries stand behind the current one loses them: all is
  freed in the end exactly if there is no such request (`CheckedMemory.EverythingFreedExactly`).
- A thread that leaves a limit point can break the count of another in two ways: by a hole that gives it a second
  slot (`LimitPoint.LeavingBreaksTheCount`; `LimitPoint.DoneKeepsPrefixExactly` says exactly when no hole is left),
  and by the countdown that a freed slot keeps for its next holder (`LimitPointLeaving.CountdownIsInherited`). A first
  leave harms no later count exactly when every slot from the one given up on shows the full count
  (`LimitPointLeaving.LeavingIsHarmlessExactly`); after any passes and leaves the counts hold exactly while every slot
  shows the count of each thread that may come to it (`LimitPointLeaving.OwnCountsHoldExactly`).
- With the default end condition of 100 the recovery schedule can run over the end of its list once every point has
  been hit, and without points it divides by zero; for every case list, of suites, test cases and the lists and XML
  files that are never asked whether they are runnable, and every list of points, `RecoverySchedule.CrashFreeExactly`
  says when it cannot.
- The recovery test's assertion that no restart is pending can fail: it holds exactly when P0 alone has queries, or
  when there is a single query in all and no full mode, which gives a laborer another one
  (`ArtFlags.AssertionHoldsExactly`).
- A table whose widths have to be searched makes the search read a line table at -1 exactly when a short header is
  empty (`TableSizing.LookupsInRangeExactly`).
- A negative target for the wasted memory makes freeing go past the end of its list exactly when chunks are held
  (`WasteRing.FreeingStaysInListExactly`, `WasteRing.Waste.FreeMemory`).

Conventions: `malloc`, the server's replies, thread scheduling and the answers of the test service are parameters or
nondeterministic steps, so the results hold for all of them. Ghost fields and ghost parameters carry what a contract
compares with.

## Model

| member | source | states |
|---|---|---|
| `ColumnWidths.NextStop` | src/atsclnt/atsc.cpp:228-239 | from a width, the first larger width whose line count differs within the limit, and otherwise a width past the limit: no change of the line count is skipped |
| `ColumnWidths.WidthSearch.AdvanceFreeColumns` | src/atsclnt/atsc.cpp:217-255 | the backward scan: the innermost free column that is not maxed out moves to its next stop, those behind it return to their minimums, and without one every column is maxed out |
| `ColumnWidths.WidthSearch.DistributeRest` | src/atsclnt/atsc.cpp:259-287 | after a move the limits are again what the earlier columns leave, and the last column gets exactly the rest of the slack, so no width underflows |
| `ColumnWidths.WidthSearch.IncColumnTestWidths` | src/atsclnt/atsc.cpp:206-290 | the next arrangement is the very next one on the grid in lexicographic order of the free columns; the scan ends only when no later arrangement exists |
| `ColumnWidths.WidthSearch.EvalColumnWidths` | src/atsclnt/atsc.cpp:292-322 | the best widths become the current ones exactly when those need strictly fewer lines |
| `ColumnWidths.RankAdvances` | src/atsclnt/atsc.cpp:206-290 | the free columns grow lexicographically, measured by a bounded number that strictly grows, so the search loop ends |
| `ColumnWidths.FitsInTables` | src/atsclnt/atsc.cpp:311-312 | a vector that keeps minimums and slack never indexes a line table out of range |
| `ColumnWidths.SearchWidths` | src/atsclnt/atsc.cpp:993-1017 | the loop terminates with widths that keep every minimum and the slack and need no more lines than any arrangement on the grid, nor than the minimums |
| `WidthOptimality.SearchIsOptimal` | src/atsclnt/atsc.cpp:987-1017 | if each free column gains nothing beyond its maximum and the last column never rises (or rises only at its very top), the best of the grid is the best of all width vectors that fit |
| `WidthOptimality.LastColumnCriterion` | src/atsclnt/atsc.cpp:279-287 | over line tables of any origin: the search is optimal beside every choice of free columns if and only if the last column passes that test on its own table |
| `WidthOptimality.FreeColumnCriterion` | src/atsclnt/atsc.cpp:228-239 | over line tables of any origin: the same if and only if for a free column, whose widths beyond its maximum have to be matched by some width up to it |
| `TableSizing.LinesNeededMeaning` | src/atsclnt/atsc.cpp:873-879 | the line formula counts the true (capped) number of lines, except that a non-empty value shorter than the column counts as two |
| `TableSizing.ValueNeverRisesExactly` | src/atsclnt/atsc.cpp:873-879 | the count of one value never rises over a range of widths if and only if its length is not inside the range (or only one line is ever counted) |
| `TableSizing.BuildLineSums` | src/atsclnt/atsc.cpp:924-951 | the table of line sums holds, for every width, the lines of all values |
| `TableSizing.DataColumnFreeOk` | src/atsclnt/atsc.cpp:861-956 | a column whose table comes from data always meets the condition on free columns |
| `TableSizing.DataColumnLastOk` | src/atsclnt/atsc.cpp:861-956 | a last column with no value length among the widths it may get meets the condition on the last column |
| `TableSizing.DescribeColumns` | src/atsclnt/atsc.cpp:958-979 | minimum and maximum table width are those of the short headers and of the least widths at which nothing is cut, with separators; every column gets its short header, that least width and its line sums |
| `TableSizing.NaturalIsLeast` | src/atsclnt/atsc.cpp:967-977 | the natural widths are the least at which neither a long header nor a value is cut, and a table can be printed uncut within a limit if and only if they fit |
| `TableSizing.PrintedLineLength` | src/atsclnt/atsc.cpp:1033-1050 | a header line, each header filled with spaces to its column and one separator between columns, is exactly as long as the width the sizing works with |
| `TableSizing.LookupsInRangeExactly` | src/atsclnt/atsc.cpp:990-1013 | the first evaluation, of the minimum widths, and every vector that fits look up only widths that the line tables have if and only if no short header is empty |
| `TableSizing.SizeColumns` | src/atsclnt/atsc.cpp:958-1027 | for every table: it is refused if and only if its short headers do not fit; when some widths cut nothing and fit, the widths chosen cut nothing and none can be less; otherwise widths are searched, which leaves the line tables if and only if a short header is empty, and which are optimal whenever the last column passes the test, as it does when none of its values has a length among the widths it may get; the line stays within the limit, a column shows its long header if and only if that fits, and every header fits |
| `TableSizing.ShortValueMissed` | src/atsclnt/atsc.cpp:873-879 | one record with values of 100 and 5 characters: three lines are possible and the search ends with at least four |
| `TableOptimality.PaddingKeepsLastOk` | src/atsclnt/atsc.cpp:928-936 | further records with empty values change nothing about that test |
| `TableOptimality.LastValuesCriterion` | src/atsclnt/atsc.cpp:861-1017 | in tables that are printed, with a value in every column for every record: the search finds the best widths in every table with the given values last (and any further records for which that column is empty) if and only if the lines of those values pass the test on the last column |
| `SuiteLoader.CaseManager.ScopeTag` | src/atsclnt/caseManager.cpp:367-412 | the four conditions on the member variables give a line the outermost tag of its path, and leave variables that stand for its context and that of its children |
| `SuiteLoader.CaseManager.LoadLine` | src/atsclnt/caseManager.cpp:203-471 | one turn of the loop appends exactly the cases of that line under lexical scoping, and restores the variables for the next line |
| `SuiteLoader.CaseManager.LoadEntry` | src/atsclnt/caseManager.cpp:413-467 | after a case and the suites below it the variables stand for the parent's context again |
| `SuiteLoader.CaseManager.LoadItem` | src/atsclnt/caseManager.cpp:426-467 | a listed case is followed by the cases of its own suite, scoped by its tag and mark |
| `SuiteLoader.CaseManager.Load` | src/atsclnt/caseManager.cpp:195-472 | for every suite tree and every prior state that stands for the context, the list grows by exactly the lexically scoped cases, in order |
| `SuiteLoader.CaseManager.LoadRoot` | src/atsclnt/caseManager.cpp:69-195 | at depth 0 the result does not depend on what the member variables held before |
| `SuiteLoader.CaseManager.LoadCase` | src/atsclnt/caseManager.cpp:33-66 | the shared list, and with flag 2 its merge with the user's list, each loaded as above |
| `SuiteLoader.ScopedByPath` | src/atsclnt/caseManager.cpp:367-412 | lexical scoping gives each case the outermost tag, and the innermost commented or skipped mark, on its path from the root |
| `SuiteLoader.MarkOfPath` | src/atsclnt/caseManager.cpp:439-448 | a case is marked runnable if and only if its root was and no entry on its path is commented out or skipped |
| `SuiteLoader.MarkOfPathExactly` | src/atsclnt/caseManager.cpp:426-460 | the mark is that of the innermost entry on the path that is commented out or skipped, where a skip outweighs a comment, and without one the mark at the start |
| `SuiteLoader.LoadedCasesRunByPath` | src/atsclnt/atsc.cpp:2281-2320 | a loaded case below the root runs on a host if and only if nothing on its path is commented out or skipped and the outermost tag, if any, admits the host |
| `SuiteLoader.RootSkipIsNotInherited` | src/atsclnt/caseManager.cpp:439-466 | a skipped root leaves its cases runnable |
| `SuiteLines.AttachExactly` | src/atsclnt/caseManager.cpp:195-472 | the entries of a file are its lines that list a case, in order, each with the name, kind, comment, mark and children of its line and the nearest tag up to that line which no case and no undotted name in between has used up; and no other entries are |
| `SuiteLines.LoadedCasesRunByLines` | src/atsclnt/atsc.cpp:2281-2320 | so the cases loaded from a file run as its lines say, path by path |
| `SuiteLines.RootListing` | src/atsclnt/caseManager.cpp:69-195 | the root is listed first, without a platform; below it come the cases of its lines for a list that can be read, and nothing for a test case, an XML file or a list that cannot |
| `CaseMerge.FindCase` | src/atsclnt/caseManager.cpp:599-601 | the first entry with the name, or the end |
| `CaseMerge.SharedNameMeans` | src/atsclnt/caseManager.cpp:586-597 | a local case at a place below the user path stands for the shared case at the same place below the shared path |
| `CaseMerge.OverriddenMeans` | src/atsclnt/caseManager.cpp:605-613 | an override takes everything from the local case but platform name and suite name |
| `CaseMerge.MergeOne` | src/atsclnt/caseManager.cpp:586-630 | one turn of the loop replaces the first entry with the shared name, or inserts at the end (first case) or at the saved place |
| `CaseMerge.MergeCase` | src/atsclnt/caseManager.cpp:568-633 | the loop with its saved iterator computes the step-by-step merge on all inputs, clashes included |
| `CaseMerge.MergeIsOverlay` | src/atsclnt/caseManager.cpp:568-633 | without a clash the result is an overlay: shared entries keep order and count, each local case appears once, as an override of the first entry it stands for or inserted behind the local case before it, the first at the end |
| `CaseMerge.MergeKeepsAllExactly` | src/atsclnt/caseManager.cpp:568-633 | given no shared entry bears a local name, the result is an overlay if and only if no local case stands for a name an earlier one brought in |
| `CaseMerge.ClashLosesACase` | src/atsclnt/caseManager.cpp:605-613 | two local cases of one name leave one entry |
| `CaseMerge.SeparatePathsNeverClash` | src/atsclnt/caseManager.cpp:581-597 | if neither case path is a prefix of the other there is never a clash |
| `CaseOrigins.TraceOf` | src/atsclnt/caseManager.cpp:568-633 | every merge has a trace of its turns, with what each entry holds, that ends with the merged list |
| `CaseOrigins.SurviveExactly` | src/atsclnt/caseManager.cpp:568-633 | for all lists: every local case survives if and only if no turn of the loop finds an entry that holds an earlier local case, and then the result is the overlay |
| `CaseOrigins.FreeIsNoClash` | src/atsclnt/caseManager.cpp:568-633 | without a clash of names no turn does, and when no shared entry bears a local name only then |
| `CaseOrigins.ClashMayBeHarmless` | src/atsclnt/caseManager.cpp:599-613 | a clash of names without loss: a free shared entry of that name stands in front |
| `Workers.RunInv` | src/ats2/laborerThread.cpp:110-239 | in every reachable state of every interleaving each laborer's queues, life and text agree with the servicer's program so far |
| `Workers.LaborerStepConserves` | src/ats2/laborerThread.cpp:197-239 | no step of a laborer loses, repeats or reorders a command |
| `Workers.OpStepOk` | src/ats2/serviceThread.cpp:1884-1994 | no step of the servicer does either, and none touches a laborer's text |
| `WorkerScripts.NodesInOrder` | src/ats2/serviceThread.cpp:889-1711 | after any prefix of a script's nodes, what has been pushed is all the script has for a process, and what has been handed over is what a barrier has released (for P0, all) |
| `WorkerRuns.ScriptsAreSound` | src/ats2/serviceThread.cpp:861-1711 | the program of every script creates, feeds, ends and joins each process in order and pushes exactly the script's commands |
| `WorkerRuns.CommandsAreConserved` | src/ats2/laborerThread.cpp:985-1041 | in every reachable state executed, broken off or in flight, live and staged commands are, in order, those pushed so far and a prefix of the script's |
| `WorkerRuns.CompleteRunsExecuteAll` | src/ats2/serviceThread.cpp:340-367 | after `syncLaborer` every laborer has returned, each that has not failed has executed all its commands in order, and each has the text its own commands and replies give |
| `WorkerRuns.ReportIgnoresScheduling` | src/ats2/serviceThread.cpp:2062-2091 | two complete runs of a script with the same replies end with the same report, written down from script and replies alone |
| `WorkerBarriers.NothingStartsBeforeItsBarrier` | src/ats2/serviceThread.cpp:1669-1711 | no process but P0 has started a command that no barrier has released yet |
| `WorkerBarriers.SyncLeavesAtMostOne` | src/ats2/laborerThread.cpp:1044-1079 | when `sync` returns for a laborer that has not ended, all it had been handed is executed but for at most one command in flight |
| `WorkerBarriers.BarriersHold` | src/ats2/serviceThread.cpp:1669-1709 | in every state after a barrier, each process it waits for (always P0) has failed, or has taken all its commands before the barrier and executed all but at most the last one taken |
| `WorkerBarriers.BarrierWaitsExactly` | src/ats2/serviceThread.cpp:1669-1709 | a barrier waits for P0 and the processes it names and for no other, hands every process its staged commands, and prints itself on P0 |
| `WorkerBarriers.SyncReturnsInFlight` | src/ats2/laborerThread.cpp:223-239 | a run in which `sync` returns while the command is still executing |
| `WorkerProgress.NoDeadlock` | src/ats2/laborerThread.cpp:110-171 | no reachable state before the end of the program is stuck |
| `WorkerProgress.StepsUseUpWork` | src/ats2/laborerThread.cpp:110-239 | every step of every interleaving strictly decreases a measure |
| `WorkerProgress.RunsAreBounded` | src/ats2/serviceThread.cpp:340-367 | every run has at most four steps for each program step and command and one for each process |
| `WorkerProgress.EveryRunCanComplete` | src/ats2/serviceThread.cpp:340-367 | from wherever a run has got to it can be carried on to the end of the program |
| `WorkerOutcome.EveryScheduleEndsWithTheReport` | src/ats2/serviceThread.cpp:340-367 | under every schedule, after a number of steps known beforehand nothing is left to do, and then the servicer is at its end with the one report that script and replies determine |
| `WorkerTexts.TextMeaning` | src/ats2/laborerThread.cpp:196-963 | the text of a process is one text after the other: of every command its own, or of a query exactly the runner's answer, the repeated one if the connection was lost and the last restart command left retrying on, and between SKIP BEGIN and SKIP END instead the query itself with one `;` at its end; up to the first query that breaks off, with its line number and the client's message |
| `WorkerTexts.RunMeaning` | src/ats2/laborerThread.cpp:173-963 | in every complete run each process has executed exactly its commands before the first that breaks off, and that one has failed: the query whose first logon, execution, or repetition after a lost connection fails |
| `WorkerTexts.ReportMeaning` | src/ats2/serviceThread.cpp:2062-2091 | under any schedule the report is the banner and these texts in the order of the processes, of the commands that the nodes of the script have for each, barriers echoed to P0 |
| `WorkerTexts.StoryExists` | src/ats2/serviceThread.cpp:861-1711 | every script tells such texts |
| `RunVerdicts.NormalVerdictExactly` | src/ats2/serviceThread.cpp:1745-1790 | a normal test case passes if and only if the expected file is the report that script and replies tell; otherwise it is fatal or a failure by the fatal flag; an ignored one passes |
| `RunVerdicts.PassIgnoresScheduling` | src/ats2/serviceThread.cpp:1745-1790 | it passes under one schedule if and only if it passes under every other |
| `Laborers.Laborer.constructor` | src/ats2/laborerThread.cpp:29-69 | a new laborer is what the model's creation step makes |
| `Laborers.Laborer.PushBack` | src/ats2/laborerThread.cpp:985-1008 | is the model's push to P0 |
| `Laborers.Laborer.PushBackAll` | src/ats2/laborerThread.cpp:1010-1041 | is the model's flush: the live queue grows by the staged list in order, which is emptied |
| `Laborers.Laborer.End` | src/ats2/laborerThread.cpp:977-983 | is the model's end step |
| `Laborers.Laborer.SyncTurn` | src/ats2/laborerThread.cpp:1044-1079 | lets `sync` return exactly when the model's wait step is enabled |
| `Laborers.Laborer.RunTurn` | src/ats2/laborerThread.cpp:110-171 | is a laborer step, or nothing has changed and there is nothing to do |
| `Laborers.Laborer.PopFront` | src/ats2/laborerThread.cpp:197-223 | takes the first live command, or leaves the loop |
| `Laborers.Laborer.ExecuteQuery` | src/ats2/laborerThread.cpp:828-909 | logon, execution, one more logon and execution after a lost connection, and skipping leave the text and flags the specification gives |
| `Laborers.Laborer.Switch` | src/ats2/laborerThread.cpp:241-826 | plain text, restart, skip and query commands do what the specification of a command says |
| `Laborers.Laborer.Execute` | src/ats2/laborerThread.cpp:241-963 | executing the popped command is the model's step, with the fatal report and the end on failure |
| `Laborers.Laborer.NextCommand` | src/ats2/laborerThread.cpp:196-963 | one turn of the loop executes the next command, or ends with all executed or one broken off, and the final text stays that of the rest |
| `Laborers.Laborer.RunReal` | src/ats2/laborerThread.cpp:173-963 | undisturbed, executes all live commands in order up to the first that breaks off, and ends with the text the specification gives |
| `Laborers.Laborer.GetResult` | src/ats2/laborerThread.cpp:1091-1101 | hands over the text of the model's laborer and empties it, and leaves the rest alone |
| `Laborers.Servicer.PushBack` | src/ats2/serviceThread.cpp:1978-1994 | P0's commands go to its live queue, all others to the staged list |
| `Laborers.Servicer.Release` | src/ats2/serviceThread.cpp:1917-1935 | every laborer is handed its staged list, in order, and no list without a laborer changes |
| `ArtFlags.FlagsStayOk` | src/ats2/laborerThread.cpp:1488-1868 | in every interleaving crash implies hit, a pending restart implies hit, and a hit is what some check saw |
| `ArtFlags.VerdictTellsKill` | src/ats2/serviceThread.cpp:1713-1819 | in sequential and full mode a case is CRASH or HIT if and only if it is not ignored and some check saw a recovery-point kill, CRASH exactly with the crash flag; without a kill it is FATAL with the fatal flag and MISS without |
| `ArtFlags.VerdictExactly` | src/ats2/serviceThread.cpp:1713-1819 | for every mode and all flags, when each of the seven verdicts is given: in normal and regressive mode PASS if and only if ignored or the report is the expected one, FATAL and FAIL otherwise by the fatal flag, CRASH by the crash flag in regressive mode |
| `ArtFlags.P0AloneIsSafe` | src/ats2/laborerThread.cpp:1656 | when only P0 has queries no restart is ever pending at the assertion |
| `ArtFlags.OneQueryIsSafe` | src/ats2/laborerThread.cpp:1656 | a single query in all comes to the assertion before anything can set the flag |
| `ArtFlags.FailsAlone` | src/ats2/laborerThread.cpp:1554-1840 | one laborer other than P0 fails the assertion with a second query, which in full mode the first one gives it |
| `ArtFlags.TwoFail` | src/ats2/laborerThread.cpp:1656-1840 | of two laborers with a query each, one is at the assertion while the other sets the flag |
| `ArtFlags.AssertionHoldsExactly` | src/ats2/laborerThread.cpp:1554-1840 | for every script of queries for each laborer, the assertion holds in every interleaving if and only if P0 alone has queries, or there is one query in all and no full mode |
| `ArtLaborers.ArtLaborer.AfterRestart` | src/ats2/laborerThread.cpp:1554-1597 | with a restart pending only P0 cleans up and takes the flag back; the crash flag is set exactly when its first logon fails |
| `ArtLaborers.ArtLaborer.PlainLogon` | src/ats2/laborerThread.cpp:1598-1630 | without a logon only a recovery-point command goes on |
| `ArtLaborers.ArtLaborer.RetryExecution4ART` | src/ats2/laborerThread.cpp:1741-1805 | fails exactly when the retry fails, there was no recovery-point kill, the command is a query and the new logon fails; the flags and the queue change only after a kill |
| `ArtLaborers.ArtLaborer.DoCheckServer4ART` | src/ats2/laborerThread.cpp:1814-1868 | a recovery-point kill sets hit and restart and, in full mode, puts the recovery-point command in front of the queue; a bug changes neither flags nor queue |
| `ArtLaborers.ArtLaborer.ExecuteQuery` | src/ats2/laborerThread.cpp:1633-1671 | succeeds exactly when the execution does, or its connection is lost with no restart pending and the retry, a kill, the command's kind or a new logon rescues it |
| `ArtLaborers.ArtLaborer.WriteResult` | src/ats2/laborerThread.cpp:1673-1716 | a skipped query adds itself, a recovery-point command nothing, any other its last text, or the first error if the server was killed; only a recovery-point command that is not skipped clears the fatal flag |
| `ArtLaborers.ArtLaborer.ExecuteArtTest` | src/ats2/laborerThread.cpp:1535-1726 | is a series of the model's steps; a kill leaves hit and restart set, P0 alone can cause a crash, and the assertion fails only for another process that meets a pending restart; a query that comes through adds its text (the first error if the server was killed, the query alone when skipped), a recovery-point command clears the fatal flag, and in full mode exactly a kill sets the point again; a failed one adds nothing |
| `RecoverySchedule.PointsAreConserved` | src/atsclnt/atsc.cpp:2053-2084 | at every moment the points hit, each once, and those pending are together the points of the file |
| `RecoverySchedule.StaysOnPoint` | src/atsclnt/atsc.cpp:2120-2144 | with points and an end condition below 100 the cursor is never dereferenced at the end, whatever the answers |
| `RecoverySchedule.CrashFreeExactly` | src/atsclnt/atsc.cpp:1885-2144 | for every case list and list of points: no answers make the loop dereference the end of the list or divide by zero if and only if, without points, every entry is a suite or test case that is not runnable, and with points, the end condition is below 100, or there is no runnable test case, or the last entry is a suite or test case that is not runnable and there are no more runnable test cases than points |
| `RecoverySchedule.EndsOnlyBy` | src/atsclnt/atsc.cpp:1885-2144 | the loop ends only by its end condition, a stopping answer, or a last suite or test case that is not runnable |
| `RecoverySchedule.EndsExactly` | src/atsclnt/atsc.cpp:1885-2144 | with the cursor on a point, a turn ends the loop if and only if a test case gets a stopping answer, or the turn comes to the end of the body and more points have been hit than the end condition's share |
| `RecoverySchedule.GoesOnExactly` | src/atsclnt/atsc.cpp:2120-2144 | a turn that goes on moves on by one entry and back to the first after the last; an answer that only counts changes no point |
| `RecoveryRotation.RunsAreInTurn` | src/atsclnt/atsc.cpp:2000-2084 | every attempt of every run is made on the point that is due, first come first served |
| `RecoveryRotation.EveryOtherPointComesFirst` | src/atsclnt/atsc.cpp:2053-2084 | after a miss every other pending point gets exactly one attempt, in order, before the point gets its next |
| `RecoveryRotation.Scheduler.OneTurn` | src/atsclnt/atsc.cpp:1885-2144 | the loop body with its branches for suites, test cases and other entries is, on the list and its cursors, one turn of the model |
| `StableSort.StableSortIsUnique` | src/viewer/TableSorter.java:221-264 | under a total preorder an arrangement is sorted and stable if and only if it is the stable sort |
| `StableSort.StableSortPermutes` | src/viewer/TableSorter.java:221-264 | keeping every class of equivalent elements is a permutation |
| `StableSort.MergeOfHalves` | src/viewer/TableSorter.java:221-264 | merging sorted halves is sorting the whole |
| `StableSort.SortTwice` | src/viewer/TableSorter.java:291-297 | sorting by b and then stably by a is sorting by a and then b |
| `TableSorter.CompareTextIsLexicographic` | src/viewer/TableSorter.java:42-136 | texts compare as in a dictionary: less means a proper prefix, or smaller at the first difference |
| `TableSorter.CompareCellsTransitive` | src/viewer/TableSorter.java:42-136 | comparing cells of one column (with nulls) is antisymmetric and transitive |
| `TableSorter.CompareCellsMeans` | src/viewer/TableSorter.java:42-136 | less means null before everything else, numbers and dates by size, texts as in a dictionary, false before true, and equal means the same value |
| `TableSorter.CompareRowsLaws` | src/viewer/TableSorter.java:138-149 | comparing rows by several columns, in either direction, is antisymmetric in sign and transitive |
| `TableSorter.Sorter.Compare` | src/viewer/TableSorter.java:138-149 | the loop returns the first difference over the sorting columns |
| `TableSorter.Sorter.ShuttleSort` | src/viewer/TableSorter.java:221-264 | started with equal ranges, the target range becomes the stable sort of what it held, short cut included, and nothing outside it changes |
| `TableSorter.Sorter.MergeByPlan` | src/viewer/TableSorter.java:253-263 | the merge loop writes the stable merge of the two halves |
| `TableSorter.Sorter.Sort` | src/viewer/TableSorter.java:186-200 | the indexes become the stable sort of themselves by the row order |
| `TableSorter.Sorter.SortByColumn` | src/viewer/TableSorter.java:291-297 | ascending, no value of the column falls down the rows shown; descending, none rises; the rows are the same ones, those with equal values in the order in which they stood |
| `TableSorter.NullsAtTheEnd` | src/viewer/TableSorter.java:48-60 | so nulls come first ascending and last descending |
| `TableSorter.Sorter.SortByTwoColumns` | src/viewer/TableSorter.java:291-297 | two clicks, first on b and then on a, each in its own direction, show the rows in the order of a and, where a ties, of b |
| `TdxSort.SwapKeepsClasses` | src/ecm/ErrorCaseManager/TDXView.java:303-330 | exchanging neighbours that are strictly out of order moves nothing past an equal |
| `TdxSort.KeyOfDecimal` | src/ecm/ErrorCaseManager/TDXView.java:306-312 | the key of a row whose first cell is a number in decimal, with or without a sign, is that number |
| `TdxSort.ReadFile.SwapRows` | src/ecm/ErrorCaseManager/TDXView.java:313-328 | the three copying loops exchange two whole rows and touch nothing else |
| `TdxSort.ReadFile.TableSort` | src/ecm/ErrorCaseManager/TDXView.java:287-331 | whole rows move, and they end in the one stable order by the number in their first column |
| `SortersAgree.BubbleAndShuttleAgree` | src/viewer/TableSorter.java:221-264 | on the same keys the bubble sort and the shuttle sort show the same order of rows |
| `RowDiff.ScanLine` | bin/rdiff.py:21-49 | the tests of one turn move the plan, description and section state as specified and decide whether the line is a row |
| `RowDiff.Load` | bin/rdiff.py:10-56 | the result is the extracted rows, numbered, in the stable order of their texts |
| `RowLines.ExtractedExactly` | bin/rdiff.py:10-56 | the rows of a file are, with their numbers and in order, exactly the lines after a rule that is not a plan's, with no row count and no plan since, that are no rule, not blank, no graph and not in the answer of a DESC |
| `RowLines.ComparedByRows` | bin/rdiff.py:76-80 | the texts that two files are compared by are those of these lines and no others |
| `RowWords.PlanStartsMeans` | bin/rdiff.py:25 | a line starts a plan if and only if it has one of five words with a space and an opening parenthesis somewhere in it |
| `RowWords.HasPromptMeans` | bin/rdiff.py:29 | a line has a prompt if and only if it has a dollar sign, P or T in either case (or a bar), a digit and a closing bracket somewhere in it |
| `RowWords.IsDescMeans` | bin/rdiff.py:32 | a line asks for a DESC if and only if a prompt, or `isql>` in either case, stands directly before ` DESC` in either case and a tab, a bar or a space |
| `RowWords.RuleAndGraphMean` | bin/rdiff.py:36-46 | a rule is ten hyphens and anything, a graph line a bar and anything |
| `RowDiff.SortedTextsAgree` | bin/rdiff.py:80 | sorted texts agree if and only if the multisets agree |
| `RowDiff.Compare` | bin/rdiff.py:76-87 | PASS if and only if the multisets of extracted rows are equal |
| `PoolSafety.AllocIsSafe` | src/ats2/uttMemory.cpp:230-273 | a piece handed out lies in its block if and only if the request is not oversized, nothing is kept, or one of the next two kept blocks has room; it is then new, long enough, aligned and overlaps nothing live |
| `PoolSafety.AllocExactly` | src/ats2/uttMemory.cpp:134-273 | a request succeeds if and only if its size is not 0 and no block is missing that `malloc` does not give; its piece is at the cursor if it fits there, and otherwise at the front of the next block, or of the one after a kept one that is too short |
| `PoolSafety.SetStatusExactly` | src/ats2/uttMemory.cpp:346-390 | a position is gone back to if and only if it is null, or aligned, behind the header and not past the cursor of a block in use; then exactly the pieces below it are live |
| `PoolSafety.FirstPieceFitsExactly` | src/ats2/uttMemory.cpp:134-148 | the first piece of a new pool is in bounds if and only if the block size is the default or at least a header |
| `PoolSafety.ExtendKeepsValid` | src/ats2/uttMemory.cpp:154-184 | going on to a kept or new block keeps all live pieces and starts behind the header |
| `PoolSafety.LivePiecesAreApart` | src/ats2/uttMemory.cpp:265-266 | in memory, live pieces are 8-aligned, within their blocks and pairwise apart |
| `PoolSafety.SessionsAreSafe` | src/ats2/uttMemory.cpp:230-435 | so they are at every moment of every sequence of alloc, clear, setStatus and freeUnused whose requests fit |
| `PoolSafety.OversizedAfterRewind` | src/ats2/uttMemory.cpp:163-165 | three calls that lead to a piece beyond its block |
| `PoolCheckpoints.CheckpointRoundTrip` | src/ats2/uttMemory.cpp:319-390 | after any session that never goes back past a checkpoint, `setStatus` succeeds and exactly the pieces live at the checkpoint are live again, at the same position |
| `PoolCheckpoints.RestoredPiecesStaySafe` | src/ats2/uttMemory.cpp:346-390 | after the return, and through any further session that never goes back past the checkpoint, every piece live at the checkpoint stays live and nothing live overlaps it |
| `PoolCheckpoints.PieceSurvivesExactly` | src/ats2/uttMemory.cpp:230-435 | `alloc` and `freeUnused` spare every live piece, `clear` and a null status none, and another status exactly those that lie below it, or all if it is refused; the piece survives if and only if the position is then at or past its end |
| `PoolCheckpoints.PieceStaysExactly` | src/ats2/uttMemory.cpp:346-400 | a piece stays live throughout a session if and only if the session never goes back past its end |
| `PoolCheckpoints.CheckpointKeepsExactly` | src/ats2/uttMemory.cpp:319-400 | taken where a piece ends, a checkpoint keeps all its pieces live throughout a session if and only if the session never goes back past it |
| `PoolCheckpoints.StaleCheckpointIsAccepted` | src/ats2/uttMemory.cpp:360-371 | after going back past a checkpoint the checks still accept it, and it cuts through a piece handed out meanwhile |
| `UttMemory.Memory.Header` | src/ats2/uttMemory.cpp:134-147 | makes the first block on first use only, with the default size for 0 |
| `UttMemory.Memory.Extend` | src/ats2/uttMemory.cpp:154-184 | goes on to the kept block, or a new one, or fails and changes nothing |
| `UttMemory.Memory.Alloc` | src/ats2/uttMemory.cpp:230-273 | computes the specified placement on all inputs, failures of `malloc` and cursors past the end of a block (the differences are unsigned) included |
| `UttMemory.Memory.Place` | src/ats2/uttMemory.cpp:247-265 | the two extensions, for an oversized request and for a block without room, as specified |
| `UttMemory.Memory.SetStatus` | src/ats2/uttMemory.cpp:346-390 | the search up to the current block with its three checks goes back exactly when the specification does, and otherwise changes nothing |
| `UttMemory.Memory.GetStatus` | src/ats2/uttMemory.cpp:319-344 | the current position, or nulls before first use |
| `UttMemory.Memory.FreeAll` | src/ats2/uttMemory.cpp:407-420 | frees every block once, in order, and leaves an empty pool |
| `UttMemory.Memory.FreeUnused` | src/ats2/uttMemory.cpp:422-435 | frees exactly the blocks behind the current one |
| `CheckedMemory.SessionsBalance` | src/ats2/uttMemory.cpp:107-133 | in every session of `alloc`, rewinds, `freeUnused` and `freeAll` each address allocated is freed, reachable or lost, and only one of these |
| `CheckedMemory.EverythingFreedExactly` | src/ats2/uttMemory.cpp:407-435 | a final `freeAll` frees everything ever allocated, once, if and only if no request was made while entries stood behind the current one |
| `CheckedMemory.LosesAfterRewind` | src/ats2/uttMemory.cpp:112-133 | two requests, a `clear` and one more request lose the second one |
| `CheckedMemory.FreesAfterRewind` | src/ats2/uttMemory.cpp:422-435 | with a `freeUnused` before the last request it is freed instead |
| `CheckedMemory.PlainSessionsFreeAll` | src/ats2/uttMemory.cpp:230-276 | without rewinds every buffer and header is freed exactly once |
| `CheckedMemoryObject.Memory.Alloc` | src/ats2/uttMemory.cpp:112-133 | chains a header with its buffer behind the current one, losing what was there |
| `CheckedMemoryObject.Memory.FreeAll` | src/ats2/uttMemory.cpp:186-209 | the walk frees buffer and header of every entry |
| `CheckedMemoryObject.Memory.FreeUnused` | src/ats2/uttMemory.cpp:422-435 | frees buffer and header of the entries behind the current one, and cuts the chain there |
| `LimitPoint.PassKeepsPrefix` | src/allim/lib/allib.c:666-681 | a pass keeps the slots a duplicate-free prefix and reports no space if and only if all are held by other threads |
| `LimitPoint.EverywhereHits` | src/allim/lib/allib.c:682-721 | at a point set for every file, or for every place of one file, each pass that finds a slot is hit and no countdown moves |
| `LimitPoint.SpecificHitsExactly` | src/allim/lib/allib.c:717-787 | elsewhere a pass is hit if and only if both names match and its slot's countdown comes to 0, which starts it anew; nothing else changes |
| `LimitPoint.SetMeans` | src/allim/lib/allib.c:496-559 | a set takes the names that are not empty, keeps the others, and starts every slot anew |
| `LimitPoint.ClearedIsQuiet` | src/allim/lib/allib.c:595-630 | after a clear no named place is hit |
| `LimitPoint.DoneKeepsPrefixExactly` | src/allim/lib/allib.c:805-820 | leaving keeps the slots a prefix if and only if the thread holds no slot or the last one; what this does to the counts is stated by the members below |
| `LimitPoint.LeavingBreaksTheCount` | src/allim/lib/allib.c:805-820 | a thread gets a second slot, with another thread's count, and misses its hit |
| `LimitPoint.BaseIsLastPart` | src/allim/lib/allib.c:710-711 | the name compared is what follows the last slash |
| `LimitPointHits.CountdownStep` | src/allim/lib/allib.c:727-760 | a countdown reaches 0 exactly at the multiples of its period, 32-bit wrap-around included |
| `LimitPointHits.HitsBySlot` | src/allim/lib/allib.c:632-836 | after a specific point is set with count k, over any passes and leaves of any threads, a pass is hit, with the point's error number, if and only if it matches and the period divides the number of matching passes made at its slot so far, by whichever thread |
| `LimitPointHits.EverywhereHitsAlways` | src/allim/lib/allib.c:632-836 | over any passes and leaves, a point set for everywhere hits every pass that finds a slot |
| `LimitPointHits.HitsExactly` | src/allim/lib/allib.c:632-787 | while no thread leaves, whatever the slots held before: a pass is hit, with the point's error number, if and only if it matches and the period (k itself when positive) divides the number of its thread's matching passes; no space exactly when all slots are held by others; a prefix of slots stays one |
| `LimitPointLeaving.OwnCountsHoldExactly` | src/allim/lib/allib.c:632-836 | after any passes and leaves, every later pass of every thread is hit exactly at the multiples of the thread's own count if and only if every slot a thread may come to shows that thread's count |
| `LimitPointLeaving.LeavingIsHarmlessExactly` | src/allim/lib/allib.c:805-820 | over any passes, a first leave harms no later count, of those who stay, newcomers or the one who left, if and only if the thread holds no slot or every slot from its own on shows the full count |
| `LimitPointLeaving.CountdownIsInherited` | src/allim/lib/allib.c:820 | a leave that keeps the prefix, after which the next holder of the slot is hit at its first pass for a count of 2 |
| `SharedPoint.Shared.PointSet` | src/allim/lib/allib.c:496-559 | names are replaced unless empty and every slot counts anew |
| `SharedPoint.Shared.PointClear` | src/allim/lib/allib.c:595-630 | empties both names and zeroes count and error number; slots and countdowns stay |
| `SharedPoint.Shared.PointPass` | src/allim/lib/allib.c:632-787 | slot search, directory stripping, EVERYWHERE and the countdown on the shared arrays do what the specification says |
| `SharedPoint.Shared.PointDone` | src/allim/lib/allib.c:789-836 | frees the thread's slot, or reports no space |
| `SharedPoint.Shared.Basename` | src/allim/lib/allib.c:710-711 | dropping one directory after the other ends with the part after the last slash |
| `WasteRing.WastedReachesTarget` | src/allim/lib/allib.c:972-1014 | wasting ends in [target, target + chunk), or earlier when one of the answers it got was no allocation; the loop terminates on remaining bytes and request size |
| `WasteRing.WastedExactly` | src/allim/lib/allib.c:972-1014 | the allocator is called exactly as long as the target is not reached, refusals, each of which halves the request, are fewer than it can be halved, and no other error came; every allocation counts one chunk |
| `WasteRing.SixteenRefusals` | src/allim/lib/allib.c:978-987 | a chunk's request can be halved sixteen times |
| `WasteRing.FreedReachesTarget` | src/allim/lib/allib.c:1016-1048 | freeing ends in (target - chunk, target] |
| `WasteRing.FreeingStaysInListExactly` | src/allim/lib/allib.c:1027-1043 | from a list that is not empty, freeing takes no more chunks than there are if and only if the target is not negative |
| `WasteRing.Waste.Append` | src/allim/lib/allib.c:991-1002 | the new chunk goes to the end of the ring, which stays a circular doubly linked list |
| `WasteRing.Waste.RemoveLast` | src/allim/lib/allib.c:1029-1040 | the last chunk leaves the ring, or the head itself when it is the only one |
| `WasteRing.Waste.WasteMemory` | src/allim/lib/allib.c:972-1014 | the ring grows by one chunk for each chunk counted |
| `WasteRing.Waste.FreeMemory` | src/allim/lib/allib.c:1016-1048 | meets a null head if and only if the target is negative and chunks are held; otherwise length times chunk size stays the counter, which ends where the specification says |
| `WasteRing.Waste.SetMemoryWaste` | src/allim/lib/allib.c:1050-1080 | sets the target only |
| `WasteRing.Waste.Memory` | src/allim/lib/allib.c:1106-1162 | what was reached becomes counter and target, and the ring agrees with it, unless the target is negative while chunks are held: then the head is null and neither counter is set |

## Left out

- Character-level parsing, fixed-size buffers and string copying in the loaders and handlers: suites start from parsed lines (their tags, comments and pending tags are modelled), scripts from parsed nodes.
- `ColumnWidths.SearchWidths`: sums are unbounded here; the source's unsigned 32-bit sums of line counts could wrap for about 200 million records.
- `TableOptimality.LastValuesCriterion`: for a slack that leaves room for another column, as any table with a second column does.
- `TableSizing.SizeColumns`: what a read outside a line table yields is not modelled; the separator is the one character the source sets; non-tabular objects and strict mode, which refuse a table before sizing, are not part of this model.
- `SuiteLoader.CaseManager.LoadCase`: the merge is stated as for `MergeMine` below; a user suite that cannot be loaded is an empty list here; the path prefixes that the skip map's names lack are taken as already stripped.
- `SuiteLoader.CaseManager.MergeMine`: the merge is stated when every local name is at least as long as the user path that is cut off it; what `subString` does for shorter ones is up to the STAF library, which is not part of this model.
- `CaseMerge.MergeKeepsAllExactly`: in terms of names alone, for shared entries that do not already bear a local case's name; for all lists `CaseOrigins.SurviveExactly` takes its place.
- An overriding local case keeps the platform name and suite name of the shared entry but brings its own flag; the model does as the code does.
- The command kinds of the scripts are reduced to plain text, restart, skip and query; environment, post, wait, system, load and remote commands only add text and are plain here, with their effect on other processes left out.
- `Workers.RunInv`: a critical section is one step, so the lock's own fairness and failures of the mutex or of thread creation are not modelled; `mEnd`, which the source reads without the lock, is read in the step that uses it.
- `WorkerProgress.NoDeadlock`: commands are taken to finish; a command that never returns blocks the source too.
- `WorkerRuns.ReportIgnoresScheduling`: covers the report of normal mode, not the time-stamped log of all processes, whose order does depend on scheduling.
- In recovery tests the servicer also pushes recovery-point commands of its own, and in full mode a laborer puts one back at the front of its queue; conservation is stated for normal mode only.
- `ArtFlags.AssertionHoldsExactly`: the queries of all laborers, with the recovery-point commands the servicer adds, are there from the start; barriers of the script, which forbid some interleavings, are left out.
- `ArtFlags.FlagsStayOk`: each access to a flag is atomic, and the server commands between them touch no flag.
- `ArtLaborers.ArtLaborer.ExecuteArtTest`: proves the calls of one laborer undisturbed; interleavings are covered by the lemmas of `ArtFlags`. The runner's texts are parameters, and the second text for the extended log is left out.
- `RecoverySchedule.CrashFreeExactly`: the hit ratio is computed without 32-bit wrap-around, which would need 43 million hits. Counters that are only printed are left out.
- `TableSorter.CompareCellsTransitive`: numbers are reals, so NaN, which compares as equal to everything in the source, is not covered.
- `TableSorter.Sorter.Sort`: columns hold values of one class and nulls; numbers are reals without NaN; the counter of comparisons is left out.
- `TdxSort.ReadFile.TableSort`: starts from a filled table whose first cells are numbers; reading the log file is left out.
- `RowDiff.Compare`: the difference files written on FAIL are left out, and lines are those that `readline` returns.
- `PoolSafety.AllocIsSafe`: sizes and block sizes are natural numbers below the point where adding a header wraps a 32-bit size; a block size other than 0 is at least a header, which `PoolSafety.FirstPieceFitsExactly` shows to be needed.
- `UttMemory.Memory.SetStatus`: the list of blocks is a sequence, so writes through stray pointers and the block header that a piece out of bounds would overwrite are not modelled.
- `CheckedMemory.SessionsBalance`: `malloc` does not fail, as the source asserts; rewinds by `clear` and `setStatus` are one operation with any position up to the current one.
- `LimitPointHits.HitsExactly`: counts by thread while no thread leaves; with leaves, `LimitPointHits.HitsBySlot` and the members of `LimitPointLeaving` take its place. Names are shorter than the fixed fields that hold them; the log, the lock and the path rule for backslashes on Windows are left out.
- `WasteRing.Waste.Memory`: one process, since the list is the process's own and the counter is shared; the bytes of chunks allocated at a halved size are counted as a whole chunk, as the source counts them.
- Service entry points, option parsing, file and command transfer, process and isql handling, user interfaces, logging and time functions: thin layers over the operating system and other programs.
