/**
 What every run of a script keeps and ends with, under any interleaving of the laborers:
 conservation, barriers, completion, and a report that does not depend on scheduling.
 */
module WorkerRuns {
  import opened Basics
  import opened Commands
  import opened Workers
  import opened WorkerScripts

  // ---------- scripts become sound programs ----------

  ghost predicate InRange(ops: seq<Op>, n: nat) {
    forall i :: 0 <= i < |ops| ==> ops[i].p < n
  }

  lemma InRangeConcat(a: seq<Op>, b: seq<Op>, n: nat)
    requires InRange(a, n) && InRange(b, n)
    ensures InRange(a + b, n)
  {
  }

  lemma {:induction false} PushesInRange(p: nat, commands: seq<Command>, n: nat)
    requires p < n
    ensures InRange(PushOps(p, commands), n)
  {
    if commands != [] { PushesInRange(p, commands[..|commands| - 1], n); }
  }

  lemma {:induction false} LoopsInRange(known: set<nat>, m: nat, n: nat)
    requires m <= n
    ensures InRange(FlushOps(known, m), n) && InRange(WaitOps(known, m), n) && InRange(CloseOps(known, m), n)
  {
    if m > 0 { LoopsInRange(known, m - 1, n); }
  }

  lemma {:induction false} KnownInRange(nodes: seq<Node>, n: nat, p0: nat)
    requires ValidNodes(nodes, n, p0)
    ensures forall p :: p in Known(nodes) ==> p < n
  {
    if nodes != [] { KnownInRange(nodes[..|nodes| - 1], n, p0); }
  }

  lemma NodeInRange(node: Node, known: set<nat>, n: nat, p0: nat)
    requires p0 < n && (node.Normal? ==> node.p < n) && forall p :: p in known ==> p < n
    ensures InRange(NodeOps(node, known, n, p0), n)
  {
    LoopsInRange(known, n, n);
    if node.Normal? { PushesInRange(node.p, node.commands, n); }
  }

  lemma {:induction false} NodesInRange(nodes: seq<Node>, n: nat, p0: nat)
    requires ValidNodes(nodes, n, p0)
    ensures InRange(NodesOps(nodes, n, p0), n)
  {
    if nodes != [] {
      var front, last := nodes[..|nodes| - 1], nodes[|nodes| - 1];
      NodesInRange(front, n, p0);
      KnownInRange(front, n, p0);
      if last.Normal? { assert last.p < n; }
      NodeInRange(last, Known(front), n, p0);
      InRangeConcat(NodesOps(front, n, p0), NodeOps(last, Known(front), n, p0), n);
    }
  }

  lemma ProgramInRange(nodes: seq<Node>, n: nat, p0: nat)
    requires ValidNodes(nodes, n, p0)
    ensures InRange(Program(nodes, n, p0), n)
  {
    NodesInRange(nodes, n, p0);
    LoopsInRange(Known(nodes), n, n);
  }

  lemma FinalBooks(setup: Setup, p: nat)
    requires setup.Valid() && p < setup.N()
    ensures var sys := setup.Sys();
      BooksAt(sys, |sys.ops|, p) ==
        if p in Known(setup.nodes) then Books(Wanted(setup.nodes, p, setup.p0), [], Joined) else NO_BOOKS
  {
    ProgramBooks(setup.nodes, setup.N(), p, setup.p0);
    assert setup.Sys().ops[..|setup.Sys().ops|] == setup.Sys().ops;
  }

  lemma {:induction false} NothingWanted(nodes: seq<Node>, p: nat, p0: nat)
    requires p !in Known(nodes) && p != p0
    ensures Wanted(nodes, p, p0) == []
  {
    if nodes != [] { NothingWanted(nodes[..|nodes| - 1], p, p0); }
  }

  /** The program of a script is sound, and pushes to each process exactly the commands the script has for it. */
  lemma ScriptsAreSound(setup: Setup)
    requires setup.Valid()
    ensures Sound(setup.Sys())
    ensures forall p :: 0 <= p < setup.N() ==> Script(setup.Sys(), p) == Wanted(setup.nodes, p, setup.p0)
  {
    ProgramInRange(setup.nodes, setup.N(), setup.p0);
    P0IsKnown(setup.nodes, setup.N(), setup.p0);
    forall p | 0 <= p < setup.N()
      ensures Script(setup.Sys(), p) == Wanted(setup.nodes, p, setup.p0)
      ensures !BooksAt(setup.Sys(), |setup.Sys().ops|, p).stage.Broken?
    {
      FinalBooks(setup, p);
      if p !in Known(setup.nodes) { NothingWanted(setup.nodes, p, setup.p0); }
    }
  }

  // ---------- conservation ----------

  /** In every reachable state the commands taken, live and staged are, in order, those pushed so far: a prefix of the script's. */
  lemma CommandsAreConserved(setup: Setup, run: seq<State>, i: nat, p: nat)
    requires setup.Valid() && IsRun(setup.Sys(), run) && i < |run| && p < setup.N()
    ensures Shaped(setup.Sys(), run[i])
    ensures var w, st := run[i].workers[p], run[i].staged[p];
      && Taken(w) + w.live + st == Pushed(BooksAt(setup.Sys(), run[i].pc, p))
      && Taken(w) + w.live + st <= Wanted(setup.nodes, p, setup.p0)
      && w.executed <= Wanted(setup.nodes, p, setup.p0)
      && |InFlight(w) + BrokenOff(w)| <= 1
  {
    var sys := setup.Sys();
    ScriptsAreSound(setup);
    RunInv(sys, run, i);
    var s := run[i];
    assert LaborerOk(sys, s.pc, p, s.workers[p], s.staged[p]);
    BooksGrow(sys, s.pc, |sys.ops|, p);
    assert Pushed(BooksAt(sys, s.pc, p)) <= Script(sys, p);
    assert s.workers[p].executed <= Taken(s.workers[p]) + s.workers[p].live + s.staged[p];
  }

  // ---------- complete runs ----------

  ghost predicate Complete(setup: Setup, run: seq<State>) {
    IsRun(setup.Sys(), run) && Shaped(setup.Sys(), run[|run| - 1]) && run[|run| - 1].pc == |setup.Sys().ops|
  }

  /**
   When the servicer's program is over, every laborer has returned; one that has not failed has
   executed all its commands in order, and each has exactly the text its own commands give.
   */
  lemma CompleteRunsExecuteAll(setup: Setup, run: seq<State>, p: nat)
    requires setup.Valid() && Complete(setup, run) && p < setup.N()
    ensures var w := run[|run| - 1].workers[p];
      && (w.created <==> p in Known(setup.nodes))
      && (w.created ==> w.phase.Done?)
      && (w.created && w.failed.None? ==> w.executed == Wanted(setup.nodes, p, setup.p0))
      && (w.created ==> w.local.result == FinalText(setup.Sys(), p, FRESH, Wanted(setup.nodes, p, setup.p0), 0))
  {
    var sys := setup.Sys();
    ScriptsAreSound(setup);
    RunInv(sys, run, |run| - 1);
    FinalBooks(setup, p);
    var s := run[|run| - 1];
    var w := s.workers[p];
    assert LaborerOk(sys, s.pc, p, w, s.staged[p]);
    if w.created && w.failed.None? {
      assert Taken(w) + w.live == w.executed;
    }
  }

  // ---------- the report ----------

  const BANNER: string :=
    " \n" +
    "+----------------------------------------------------------------------+\n" +
    "--+SECTOR 0; BY ATC\n" +
    "+----------------------------------------------------------------------+\n \n" +
    "$P0> --+PROCESS P0;\n"

  /** The texts of the laborers with number below `n`, in key order. */
  function Texts(workers: seq<Worker>, n: nat): string
    requires n <= |workers|
  {
    if n == 0 then "" else Texts(workers, n - 1) + if workers[n - 1].created then workers[n - 1].local.result else ""
  }

  /** `mReData` as `saveRESULT` assembles it when nothing was reported before. */
  function Report(s: State): string { BANNER + Texts(s.workers, |s.workers|) + "\n" }

  /** The text that the script and the replies alone give process `p`, without a schedule. */
  function Expected(setup: Setup, p: nat): string
    requires p < setup.N()
  {
    FinalText(setup.Sys(), p, FRESH, Wanted(setup.nodes, p, setup.p0), 0)
  }

  function ExpectedTexts(setup: Setup, n: nat): string
    requires n <= setup.N()
  {
    if n == 0 then "" else ExpectedTexts(setup, n - 1) + if n - 1 in Known(setup.nodes) then Expected(setup, n - 1) else ""
  }

  ghost predicate HasItsText(setup: Setup, w: Worker, p: nat)
    requires p < setup.N()
  {
    (w.created <==> p in Known(setup.nodes)) && (w.created ==> w.local.result == Expected(setup, p))
  }

  lemma {:induction false} TextsAsExpected(setup: Setup, workers: seq<Worker>, n: nat)
    requires n <= setup.N() == |workers| && forall p :: 0 <= p < |workers| ==> HasItsText(setup, workers[p], p)
    ensures Texts(workers, n) == ExpectedTexts(setup, n)
  {
    if n > 0 {
      TextsAsExpected(setup, workers, n - 1);
      assert HasItsText(setup, workers[n - 1], n - 1);
    }
  }

  lemma ReportAsExpected(setup: Setup, run: seq<State>)
    requires setup.Valid() && Complete(setup, run)
    ensures Report(run[|run| - 1]) == BANNER + ExpectedTexts(setup, setup.N()) + "\n"
  {
    var workers := run[|run| - 1].workers;
    forall p | 0 <= p < |workers|
      ensures HasItsText(setup, workers[p], p)
    {
      CompleteRunsExecuteAll(setup, run, p);
    }
    TextsAsExpected(setup, workers, |workers|);
  }

  /** Two complete runs of one script with the same replies end with the same report, and so with the same verdict. */
  lemma ReportIgnoresScheduling(setup: Setup, a: seq<State>, b: seq<State>)
    requires setup.Valid() && Complete(setup, a) && Complete(setup, b)
    ensures Report(a[|a| - 1]) == Report(b[|b| - 1]) == BANNER + ExpectedTexts(setup, setup.N()) + "\n"
  {
    ReportAsExpected(setup, a);
    ReportAsExpected(setup, b);
  }
}
