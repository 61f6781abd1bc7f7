/**
 What the barriers of a script guarantee over whole runs: no command starts before the
 barrier that releases it, and once a barrier has been passed, what it waited for has been
 taken from the queues, all but at most one command of it executed to the end.
 */
module WorkerBarriers {
  import opened Basics
  import opened Commands
  import opened Workers
  import opened WorkerScripts
  import opened WorkerRuns

  // ---------- positions in the program ----------

  lemma {:induction false} NodesPrefix(a: seq<Node>, b: seq<Node>, n: nat, p0: nat)
    ensures NodesOps(a, n, p0) <= NodesOps(a + b, n, p0)
  {
    if b == [] {
      assert a + b == a;
    } else {
      var front := b[..|b| - 1];
      assert (a + b)[..|a + b| - 1] == a + front;
      NodesPrefix(a, front, n, p0);
    }
  }

  /** The program position after the nodes `u`. */
  function After(setup: Setup, u: seq<Node>): nat { |NodesOps(u, setup.N(), setup.p0)| }

  lemma BooksOfPrefix(setup: Setup, ops: seq<Op>, p: nat)
    requires ops <= setup.Sys().ops
    ensures BooksAt(setup.Sys(), |ops|, p) == Fold(ops, p, setup.p0, NO_BOOKS)
  {
    assert setup.Sys().ops[..|ops|] == ops;
  }

  lemma ValidPrefix(setup: Setup, u: seq<Node>)
    requires setup.Valid() && u <= setup.nodes
    ensures ValidNodes(u, setup.N(), setup.p0)
  {
  }

  lemma PrefixOfProgram(setup: Setup, u: seq<Node>)
    requires u <= setup.nodes
    ensures NodesOps(u, setup.N(), setup.p0) <= setup.Sys().ops
    ensures After(setup, u) <= |setup.Sys().ops|
  {
    var rest := setup.nodes[|u|..];
    assert u + rest == setup.nodes;
    NodesPrefix(u, rest, setup.N(), setup.p0);
    assert NodesOps(setup.nodes, setup.N(), setup.p0) <= setup.Sys().ops;
  }

  /** At the end of the nodes `u` the books are those of `u`. */
  lemma AfterNodes(setup: Setup, u: seq<Node>, p: nat)
    requires setup.Valid() && u <= setup.nodes && p < setup.N()
    ensures After(setup, u) <= |setup.Sys().ops|
    ensures InOrder(BooksAt(setup.Sys(), After(setup, u), p), u, p, setup.p0)
  {
    PrefixOfProgram(setup, u);
    BooksOfPrefix(setup, NodesOps(u, setup.N(), setup.p0), p);
    ValidPrefix(setup, u);
    NodesInOrder(u, setup.N(), p, setup.p0);
  }

  // ---------- nothing starts early ----------

  ghost predicate NoBarrier(nodes: seq<Node>) {
    forall i :: 0 <= i < |nodes| ==> nodes[i].Normal?
  }

  lemma {:induction false} ReleasedByBarriersOnly(u: seq<Node>, v: seq<Node>, p: nat, p0: nat)
    requires NoBarrier(v) && p != p0
    ensures Released(u + v, p, p0) == Released(u, p, p0)
  {
    if v == [] {
      assert u + v == u;
    } else {
      assert (u + v)[..|u + v| - 1] == u + v[..|v| - 1];
      assert (u + v)[|u + v| - 1] == v[|v| - 1];
      ReleasedByBarriersOnly(u, v[..|v| - 1], p, p0);
    }
  }

  lemma {:induction false} ReleasedIsWanted(u: seq<Node>, p: nat, p0: nat)
    ensures Released(u, p, p0) <= Wanted(u, p, p0)
  {
    if u != [] { ReleasedIsWanted(u[..|u| - 1], p, p0); }
  }

  /**
   While the servicer is at most at the end of the nodes `u + v`, where `v` holds no barrier, no
   process but P0 has started a command of `v`; with `u` empty, none has started any command.
   */
  lemma NothingStartsBeforeItsBarrier(setup: Setup, u: seq<Node>, v: seq<Node>, rest: seq<Node>, run: seq<State>, i: nat, p: nat)
    requires setup.Valid() && setup.nodes == u + v + rest && NoBarrier(v)
    requires IsRun(setup.Sys(), run) && i < |run| && run[i].pc <= After(setup, u + v)
    requires p < setup.N() && p != setup.p0
    ensures Shaped(setup.Sys(), run[i]) && Taken(run[i].workers[p]) <= Wanted(u, p, setup.p0)
  {
    var sys, s := setup.Sys(), run[i];
    ScriptsAreSound(setup);
    RunInv(sys, run, i);
    assert LaborerOk(sys, s.pc, p, s.workers[p], s.staged[p]);
    AfterNodes(setup, u + v, p);
    BooksGrow(sys, s.pc, After(setup, u + v), p);
    ReleasedByBarriersOnly(u, v, p, setup.p0);
    ReleasedIsWanted(u, p, setup.p0);
    assert Taken(s.workers[p]) <= BooksAt(sys, s.pc, p).handed <= BooksAt(sys, After(setup, u + v), p).handed;
  }

  // ---------- one wait ----------

  /** `Laborer::sync` returns for a laborer that has not ended: all it was handed is executed, but for at most one command in flight. */
  lemma SyncLeavesAtMostOne(sys: System, s: State, s': State)
    requires Inv(sys, s) && ServicerMoves(sys, s, s') && sys.ops[s.pc].Wait? && !s.workers[sys.ops[s.pc].p].ended
    ensures var p := sys.ops[s.pc].p; var w := s'.workers[p];
      BooksAt(sys, s'.pc, p).handed == w.executed + InFlight(w) && |InFlight(w)| <= 1
  {
    var p := sys.ops[s.pc].p;
    assert LaborerOk(sys, s.pc, p, s.workers[p], s.staged[p]);
    BooksNext(sys, s.pc, p);
    assert s.workers[p].executed + [] == s.workers[p].executed;
  }

  // ---------- all waits so far ----------

  /** The commands of process `p` that the latest `Wait(p)` among the first `k` steps covered. */
  function Promised(sys: System, k: nat, p: nat): seq<Command>
    requires k <= |sys.ops|
  {
    if k == 0 then []
    else if sys.ops[k - 1] == Wait(p) && BooksAt(sys, k - 1, p).stage.Open? then BooksAt(sys, k - 1, p).handed
    else Promised(sys, k - 1, p)
  }

  ghost predicate Kept(sys: System, k: nat, p: nat, w: Worker)
    requires k <= |sys.ops|
  {
    w.failed.Some? || Promised(sys, k, p) <= Taken(w)
  }

  lemma TakenGrows(sys: System, p: nat, w: Worker, w': Worker)
    requires p < |sys.names| && LaborerStep(sys, p, w, w') && (w.failed.Some? ==> w.phase.Done?)
    ensures Taken(w) <= Taken(w') && (w.failed.Some? ==> w'.failed.Some?)
  {
  }

  /** The servicer's step takes nothing. */
  lemma OpTakesNothing(sys: System, op: Op, w: Worker, st: seq<Command>, w': Worker, st': seq<Command>)
    requires OpStep(sys, op, w, st, w', st') && (op.Create? ==> Taken(w) == [])
    ensures Taken(w') == Taken(w) && (w.failed.Some? && !op.Create? ==> w'.failed.Some?)
  {
  }

  lemma NotYetCreated(sys: System, s: State, p: nat)
    requires Inv(sys, s) && s.pc < |sys.ops| && sys.ops[s.pc] == Create(p) && p < |sys.names|
    ensures s.workers[p] == NOBODY
  {
    assert LaborerOk(sys, s.pc, p, s.workers[p], s.staged[p]);
    BooksAreOk(sys, s.pc, p);
    BooksNext(sys, s.pc, p);
    NotBroken(sys, s.pc + 1, p);
  }

  lemma WaitKeeps(sys: System, s: State, s': State, p: nat)
    requires Inv(sys, s) && ServicerMoves(sys, s, s') && p < |sys.names| && Kept(sys, s.pc, p, s.workers[p])
    ensures Kept(sys, s'.pc, p, s'.workers[p])
  {
    var op, w := sys.ops[s.pc], s.workers[p];
    assert LaborerOk(sys, s.pc, p, w, s.staged[p]);
    if op.p == p {
      if op.Create? { NotYetCreated(sys, s, p); }
      OpTakesNothing(sys, op, w, s.staged[p], s'.workers[p], s'.staged[p]);
    }
  }

  lemma {:induction false} PromisesAreKept(sys: System, run: seq<State>, i: nat, p: nat)
    requires Sound(sys) && IsRun(sys, run) && i < |run| && p < |sys.names|
    ensures Shaped(sys, run[i]) && Kept(sys, run[i].pc, p, run[i].workers[p])
  {
    RunInv(sys, run, i);
    if i > 0 {
      PromisesAreKept(sys, run, i - 1, p);
      RunInv(sys, run, i - 1);
      assert Next(sys, run[i - 1], run[i]);
      if ServicerMoves(sys, run[i - 1], run[i]) {
        WaitKeeps(sys, run[i - 1], run[i], p);
      } else {
        var q :| LaborerMoves(sys, run[i - 1], run[i], q);
        if q == p {
          assert LaborerOk(sys, run[i - 1].pc, p, run[i - 1].workers[p], run[i - 1].staged[p]);
          TakenGrows(sys, p, run[i - 1].workers[p], run[i].workers[p]);
        }
      }
    }
  }

  lemma {:induction false} PromisedFrom(sys: System, j: nat, k: nat, p: nat)
    requires j < k <= |sys.ops| && sys.ops[j] == Wait(p) && BooksAt(sys, j, p).stage.Open?
    ensures BooksAt(sys, j, p).handed <= Promised(sys, k, p)
  {
    if j < k - 1 {
      PromisedFrom(sys, j, k - 1, p);
      BooksGrow(sys, j, k - 1, p);
    }
  }

  /** Once the servicer is past a `Wait(p)`, a laborer that has not failed has taken all it had been handed at it. */
  lemma WaitHolds(sys: System, j: nat, run: seq<State>, i: nat, p: nat)
    requires Sound(sys) && IsRun(sys, run) && i < |run| && p < |sys.names|
    requires j < run[i].pc && j < |sys.ops| && sys.ops[j] == Wait(p) && BooksAt(sys, j, p).stage.Open?
    ensures Shaped(sys, run[i])
    ensures run[i].workers[p].failed.Some? || BooksAt(sys, j, p).handed <= Taken(run[i].workers[p])
  {
    PromisesAreKept(sys, run, i, p);
    PromisedFrom(sys, j, run[i].pc, p);
  }

  // ---------- barriers ----------

  /** The processes a barrier waits for: P0, and those it names. */
  ghost predicate WaitsFor(node: Node, known: set<nat>, p: nat, p0: nat)
    requires !node.Normal?
  {
    p == p0 || (p in known && (node.PwaitAll? || (node.PwaitFor? && node.q == p)))
  }

  lemma {:induction false} WaitAt(known: set<nat>, n: nat, p: nat)
    requires p in known && p < n
    ensures WaitOps(known, p) + [Wait(p)] <= WaitOps(known, n)
  {
    if p < n - 1 { WaitAt(known, n - 1, p); }
  }

  /** The steps of a barrier before it waits for `p`, after the nodes `u`. */
  function BeforeWait(node: Node, known: set<nat>, n: nat, p: nat, p0: nat): seq<Op>
    requires !node.Normal?
  {
    if p == p0 then []
    else [Wait(p0)] + FlushOps(known, n) + if node.PwaitAll? then WaitOps(known, p) else []
  }

  lemma BarrierWaits(node: Node, known: set<nat>, n: nat, p: nat, p0: nat)
    requires !node.Normal? && WaitsFor(node, known, p, p0) && p < n
    ensures BeforeWait(node, known, n, p, p0) + [Wait(p)] <= NodeOps(node, known, n, p0)
  {
    var ops := NodeOps(node, known, n, p0);
    if p != p0 && node.PwaitAll? {
      WaitAt(known, n, p);
      var pre := [Wait(p0)] + FlushOps(known, n);
      assert pre + (WaitOps(known, p) + [Wait(p)]) == BeforeWait(node, known, n, p, p0) + [Wait(p)];
      assert pre + WaitOps(known, n) <= ops;
    }
  }

  lemma {:induction false} WaitOpsAre(known: set<nat>, n: nat, op: Op)
    ensures op in WaitOps(known, n) <==> op.Wait? && op.p in known && op.p < n
  {
    if n > 0 { WaitOpsAre(known, n - 1, op); }
  }

  lemma {:induction false} FlushOpsAre(known: set<nat>, n: nat, op: Op)
    ensures op in FlushOps(known, n) <==> op.Flush? && op.p in known && op.p < n
  {
    if n > 0 { FlushOpsAre(known, n - 1, op); }
  }

  /** A barrier waits for P0 and those it names, and for no other process; it hands everything over, and P0 prints it. */
  lemma BarrierWaitsExactly(node: Node, known: set<nat>, n: nat, p0: nat, op: Op)
    requires !node.Normal? && forall q :: q in known ==> q < n
    ensures op in NodeOps(node, known, n, p0) <==>
      match op
      case Wait(p) => WaitsFor(node, known, p, p0)
      case Flush(p) => p in known
      case Push(p, c) => p == p0 && c == Echo(node)
      case _ => false
  {
    WaitOpsAre(known, n, op);
    FlushOpsAre(known, n, op);
  }

  /** At the wait for `p`, all that the nodes `u` have for `p` has been handed over. */
  lemma HandedAtWait(node: Node, known: set<nat>, n: nat, p: nat, p0: nat, b: Books)
    requires !node.Normal? && WaitsFor(node, known, p, p0) && p < n && BooksOk(b, p, p0)
    requires b.stage.Open? && p in known
    ensures var b' := Fold(BeforeWait(node, known, n, p, p0), p, p0, b); b'.handed == Pushed(b) && b'.stage.Open?
  {
    if p == p0 {
      assert Pushed(b) == b.handed;
    } else {
      var pre, w := [Wait(p0)] + FlushOps(known, n), if node.PwaitAll? then WaitOps(known, p) else [];
      FoldConcat(pre, w, p, p0, b);
      FoldConcat([Wait(p0)], FlushOps(known, n), p, p0, b);
      FoldOne(Wait(p0), p, p0, b);
      FoldFlushes(known, n, p, p0, b);
      FoldWaits(known, p, p, p0, b.(handed := Pushed(b), staged := []));
    }
  }

  /** Where in the program the barrier after `u` waits for `p`. */
  function WaitsAt(setup: Setup, u: seq<Node>, node: Node, p: nat): seq<Op>
    requires !node.Normal?
  {
    NodesOps(u, setup.N(), setup.p0) + BeforeWait(node, Known(u), setup.N(), p, setup.p0)
  }

  lemma WaitInProgram(setup: Setup, u: seq<Node>, node: Node, rest: seq<Node>, p: nat)
    requires setup.Valid() && setup.nodes == u + [node] + rest && !node.Normal? && p < setup.N()
    requires WaitsFor(node, Known(u), p, setup.p0)
    ensures After(setup, u + [node]) <= |setup.Sys().ops|
    ensures |WaitsAt(setup, u, node, p)| < After(setup, u + [node])
    ensures WaitsAt(setup, u, node, p) + [Wait(p)] <= setup.Sys().ops
  {
    PrefixOfProgram(setup, u + [node]);
    WaitInNodes(setup, u, node, p);
  }

  lemma WaitInNodes(setup: Setup, u: seq<Node>, node: Node, p: nat)
    requires !node.Normal? && p < setup.N() && WaitsFor(node, Known(u), p, setup.p0)
    ensures WaitsAt(setup, u, node, p) + [Wait(p)] <= NodesOps(u + [node], setup.N(), setup.p0)
  {
    var n, p0 := setup.N(), setup.p0;
    assert (u + [node])[..|u + [node]| - 1] == u;
    BarrierWaits(node, Known(u), n, p, p0);
    var a, pre := NodesOps(u, n, p0), BeforeWait(node, Known(u), n, p, p0);
    assert a + (pre + [Wait(p)]) == WaitsAt(setup, u, node, p) + [Wait(p)];
  }

  lemma FoldToWait(u: seq<Node>, node: Node, n: nat, p: nat, p0: nat)
    requires ValidNodes(u, n, p0) && !node.Normal? && p < n && p in Known(u) && WaitsFor(node, Known(u), p, p0)
    ensures var b := Fold(NodesOps(u, n, p0) + BeforeWait(node, Known(u), n, p, p0), p, p0, NO_BOOKS);
      b.stage.Open? && b.handed == Wanted(u, p, p0)
  {
    NodesInOrder(u, n, p, p0);
    FoldConcat(NodesOps(u, n, p0), BeforeWait(node, Known(u), n, p, p0), p, p0, NO_BOOKS);
    HandedAtWait(node, Known(u), n, p, p0, Fold(NodesOps(u, n, p0), p, p0, NO_BOOKS));
  }

  lemma WaitBooks(setup: Setup, u: seq<Node>, node: Node, rest: seq<Node>, p: nat)
    requires setup.Valid() && setup.nodes == u + [node] + rest && !node.Normal?
    requires p < setup.N() && p in Known(u) && WaitsFor(node, Known(u), p, setup.p0)
    requires WaitsAt(setup, u, node, p) <= setup.Sys().ops
    ensures var b := BooksAt(setup.Sys(), |WaitsAt(setup, u, node, p)|, p);
      b.stage.Open? && b.handed == Wanted(u, p, setup.p0)
  {
    ValidPrefix(setup, u);
    FoldToWait(u, node, setup.N(), p, setup.p0);
    assert BooksAt(setup.Sys(), |WaitsAt(setup, u, node, p)|, p) ==
           Fold(WaitsAt(setup, u, node, p), p, setup.p0, NO_BOOKS) by {
      BooksOfPrefix(setup, WaitsAt(setup, u, node, p), p);
    }
  }

  lemma TakenIsAlmostExecuted(w: Worker)
    ensures w.failed.None? ==> Taken(w) == w.executed + InFlight(w) && |InFlight(w)| <= 1
  {
  }

  /**
   In every state after a barrier, each process it waits for either has failed or has taken every
   command that the script has for it before the barrier, and all of them but the last one taken are executed.
   */
  lemma BarriersHold(setup: Setup, u: seq<Node>, node: Node, rest: seq<Node>, run: seq<State>, i: nat, p: nat)
    requires setup.Valid() && setup.nodes == u + [node] + rest && !node.Normal?
    requires p < setup.N() && p in Known(u) && WaitsFor(node, Known(u), p, setup.p0)
    requires IsRun(setup.Sys(), run) && i < |run| && run[i].pc >= After(setup, u + [node])
    ensures Shaped(setup.Sys(), run[i])
    ensures var w := run[i].workers[p];
      w.failed.Some? || (Wanted(u, p, setup.p0) <= w.executed + InFlight(w) && |InFlight(w)| <= 1)
  {
    ScriptsAreSound(setup);
    WaitInProgram(setup, u, node, rest, p);
    WaitBooks(setup, u, node, rest, p);
    WaitHolds(setup.Sys(), |WaitsAt(setup, u, node, p)|, run, i, p);
    TakenIsAlmostExecuted(run[i].workers[p]);
  }

  // ---------- the one command in flight ----------

  const LONE_COMMAND: Command := Plain("select 1;")
  const LONE_SCRIPT: seq<Node> := [Normal(0, [LONE_COMMAND]), PwaitAll]

  function LoneSetup(r: Reply): Setup { Setup(["P0"], 0, LONE_SCRIPT, (p, k) => r) }

  lemma LoneProgram(ops: seq<Op>)
    requires ops == Program(LONE_SCRIPT, 1, 0)
    ensures |ops| > 3 && ops[0] == Create(0) && ops[1] == Push(0, LONE_COMMAND) && ops[2] == Wait(0)
    ensures InRange(ops, 1)
  {
    var u := [LONE_SCRIPT[0]];
    assert LONE_SCRIPT[..1] == u && u[..0] == [];
    assert PushOps(0, [LONE_COMMAND]) == [Push(0, LONE_COMMAND)] by { assert [LONE_COMMAND][..0] == []; }
    assert Known([]) == {};
    assert NodesOps(u, 1, 0) == [Create(0), Push(0, LONE_COMMAND)];
    ProgramInRange(LONE_SCRIPT, 1, 0);
  }

  /** P0 alone, just created, with its command live or in flight. */
  function Lone(pc: nat, phase: Phase, live: seq<Command>): State {
    State(pc, [NOBODY.(created := true, phase := phase, live := live)], [[]])
  }

  const LONE_STATES: seq<State> := [
    State(0, [NOBODY], [[]]), Lone(1, Idle, []), Lone(2, Idle, [LONE_COMMAND]), Lone(2, InReal, [LONE_COMMAND]),
    Lone(2, Executing(LONE_COMMAND), []), Lone(3, Executing(LONE_COMMAND), [])]

  ghost predicate LoneSys(sys: System) {
    && |sys.names| == 1 && sys.p0 == 0 && WellFormed(sys) && |sys.ops| > 3
    && sys.ops[0] == Create(0) && sys.ops[1] == Push(0, LONE_COMMAND) && sys.ops[2] == Wait(0)
  }

  lemma LonePops(sys: System)
    requires LoneSys(sys)
    ensures Next(sys, LONE_STATES[2], LONE_STATES[3]) && Next(sys, LONE_STATES[3], LONE_STATES[4])
  {
    assert LaborerMoves(sys, LONE_STATES[2], LONE_STATES[3], 0);
    assert LaborerMoves(sys, LONE_STATES[3], LONE_STATES[4], 0);
  }

  lemma LoneServed(sys: System)
    requires LoneSys(sys)
    ensures Next(sys, LONE_STATES[0], LONE_STATES[1]) && Next(sys, LONE_STATES[1], LONE_STATES[2])
    ensures Next(sys, LONE_STATES[4], LONE_STATES[5])
  {
  }

  lemma LoneRun(sys: System)
    requires LoneSys(sys)
    ensures IsRun(sys, LONE_STATES)
  {
    LonePops(sys);
    LoneServed(sys);
    forall i | 0 < i < 6
      ensures Next(sys, LONE_STATES[i - 1], LONE_STATES[i])
    {
      assert i == 1 || i == 2 || i == 3 || i == 4 || i == 5;
    }
  }

  /** The bound is met: a run in which P0's `sync` returns while the command it waited for is still executing. */
  lemma SyncReturnsInFlight(r: Reply) returns (run: seq<State>)
    ensures LoneSetup(r).Valid() && IsRun(LoneSetup(r).Sys(), run)
    ensures var ops, s := LoneSetup(r).Sys().ops, run[|run| - 1];
      && 0 < s.pc <= |ops| && ops[s.pc - 1] == Wait(0) && |s.workers| == 1
      && !s.workers[0].ended && s.workers[0].executed == [] && InFlight(s.workers[0]) == [LONE_COMMAND]
  {
    LoneProgram(LoneSetup(r).Sys().ops);
    LoneRun(LoneSetup(r).Sys());
    run := LONE_STATES;
  }
}
