/**
 From a test script to the servicer's program (`Servicer::runParseTable`,
 src/ats2/serviceThread.cpp), and what every run of the program keeps and ends with.
 */
module WorkerScripts {
  import opened Commands
  import opened Workers

  /** A node of the parse table: commands for one process, or a barrier. */
  datatype Node =
    | Normal(p: nat, commands: seq<Command>)
    | PwaitAll
    | PwaitSeconds(seconds: string)
    | PwaitFor(q: nat, name: string)

  // ---------- the program of a script ----------

  function PushOps(p: nat, commands: seq<Command>): seq<Op> {
    if commands == [] then [] else PushOps(p, commands[..|commands| - 1]) + [Push(p, commands[|commands| - 1])]
  }

  /** The loops over the laborers, in key order. */
  function FlushOps(known: set<nat>, n: nat): seq<Op> {
    if n == 0 then [] else FlushOps(known, n - 1) + if n - 1 in known then [Flush(n - 1)] else []
  }

  function WaitOps(known: set<nat>, n: nat): seq<Op> {
    if n == 0 then [] else WaitOps(known, n - 1) + if n - 1 in known then [Wait(n - 1)] else []
  }

  function CloseOps(known: set<nat>, n: nat): seq<Op> {
    if n == 0 then [] else CloseOps(known, n - 1) + if n - 1 in known then [End(n - 1), Join(n - 1)] else []
  }

  /** The processes that the nodes name. */
  function Known(nodes: seq<Node>): set<nat> {
    if nodes == [] then {} else
      var last := nodes[|nodes| - 1];
      Known(nodes[..|nodes| - 1]) + if last.Normal? then {last.p} else {}
  }

  /** The line that P0 prints for a barrier. */
  function Echo(node: Node): Command
    requires !node.Normal?
  {
    match node
    case PwaitAll => Plain("$P0> --+PWAIT ;")
    case PwaitSeconds(seconds) => Plain("$P0> --+PWAIT " + seconds + " ;")
    case PwaitFor(_, name) => Plain("$P0> --+PWAIT " + name + " ;")
  }

  /** What a barrier waits for after the staged commands are handed over. */
  function Awaited(node: Node, known: set<nat>, n: nat): seq<Op>
    requires !node.Normal?
  {
    match node
    case PwaitAll => WaitOps(known, n)
    case PwaitSeconds(_) => []
    case PwaitFor(q, _) => if q in known then [Wait(q)] else []
  }

  function NodeOps(node: Node, known: set<nat>, n: nat, p0: nat): seq<Op> {
    if node.Normal? then (if node.p in known then [] else [Create(node.p)]) + PushOps(node.p, node.commands)
    else [Wait(p0)] + FlushOps(known, n) + Awaited(node, known, n) + [Push(p0, Echo(node))]
  }

  function NodesOps(nodes: seq<Node>, n: nat, p0: nat): seq<Op> {
    if nodes == [] then [] else
      var front := nodes[..|nodes| - 1];
      NodesOps(front, n, p0) + NodeOps(nodes[|nodes| - 1], Known(front), n, p0)
  }

  /** The nodes, then `syncLaborer`: hand over, wait, end and join. */
  function Program(nodes: seq<Node>, n: nat, p0: nat): seq<Op> {
    var known := Known(nodes);
    NodesOps(nodes, n, p0) + FlushOps(known, n) + WaitOps(known, n) + CloseOps(known, n)
  }

  datatype Setup = Setup(names: seq<string>, p0: nat, nodes: seq<Node>, replies: (nat, nat) -> Reply) {
    function N(): nat { |names| }

    function Sys(): System { System(names, p0, Program(nodes, N(), p0), replies) }

    /** Every parse table starts with a node for P0. */
    ghost predicate Valid() {
      && p0 < N() && nodes != [] && nodes[0].Normal? && nodes[0].p == p0
      && forall i :: 0 <= i < |nodes| && nodes[i].Normal? ==> nodes[i].p < N()
    }
  }

  // ---------- what a script means for one process ----------

  /** All commands a script has for process `p`. */
  function Wanted(nodes: seq<Node>, p: nat, p0: nat): seq<Command> {
    if nodes == [] then [] else
      var last := nodes[|nodes| - 1];
      Wanted(nodes[..|nodes| - 1], p, p0) +
      if last.Normal? then (if last.p == p then last.commands else []) else if p == p0 then [Echo(last)] else []
  }

  /** Those that a barrier has released; P0's commands need none. */
  function Released(nodes: seq<Node>, p: nat, p0: nat): seq<Command> {
    if p == p0 then Wanted(nodes, p, p0)
    else if nodes == [] then []
    else if nodes[|nodes| - 1].Normal? then Released(nodes[..|nodes| - 1], p, p0)
    else Wanted(nodes, p, p0)
  }

  ghost predicate InOrder(b: Books, nodes: seq<Node>, p: nat, p0: nat) {
    && b.stage == (if p in Known(nodes) then Open else Absent)
    && Pushed(b) == Wanted(nodes, p, p0) && b.handed == Released(nodes, p, p0)
    && BooksOk(b, p, p0)
  }

  lemma FoldOne(op: Op, p: nat, p0: nat, b: Books)
    ensures Fold([op], p, p0, b) == Book(op, p, p0, b)
  {
  }

  lemma {:induction false} FoldPushes(q: nat, commands: seq<Command>, p: nat, p0: nat, b: Books)
    requires b.stage.Open? || q != p
    requires BooksOk(b, p, p0)
    ensures var b' := Fold(PushOps(q, commands), p, p0, b);
      && b'.stage == b.stage && BooksOk(b', p, p0)
      && Pushed(b') == Pushed(b) + (if q == p then commands else [])
      && b'.handed == b.handed + (if q == p == p0 then commands else [])
  {
    if commands == [] {
      assert Pushed(b) + [] == Pushed(b) && b.handed + [] == b.handed;
    } else {
      var front, last := commands[..|commands| - 1], commands[|commands| - 1];
      FoldPushes(q, front, p, p0, b);
      var m := Fold(PushOps(q, front), p, p0, b);
      FoldConcat(PushOps(q, front), [Push(q, last)], p, p0, b);
      FoldOne(Push(q, last), p, p0, m);
      assert front + [last] == commands;
      if q == p {
        assert m.handed + (m.staged + [last]) == Pushed(m) + [last];
        assert Pushed(b) + commands == (Pushed(b) + front) + [last];
        assert b.handed + commands == (b.handed + front) + [last];
      }
    }
  }

  lemma {:induction false} FoldFlushes(known: set<nat>, n: nat, p: nat, p0: nat, b: Books)
    requires p in known ==> b.stage.Open?
    ensures Fold(FlushOps(known, n), p, p0, b) == if p in known && p < n then b.(handed := Pushed(b), staged := []) else b
  {
    if n > 0 {
      FoldFlushes(known, n - 1, p, p0, b);
      if n - 1 in known {
        FoldConcat(FlushOps(known, n - 1), [Flush(n - 1)], p, p0, b);
        FoldOne(Flush(n - 1), p, p0, Fold(FlushOps(known, n - 1), p, p0, b));
      } else {
        assert FlushOps(known, n) == FlushOps(known, n - 1);
      }
    }
  }

  lemma {:induction false} FoldWaits(known: set<nat>, n: nat, p: nat, p0: nat, b: Books)
    ensures Fold(WaitOps(known, n), p, p0, b) == b
  {
    if n > 0 {
      FoldWaits(known, n - 1, p, p0, b);
      if n - 1 in known {
        FoldConcat(WaitOps(known, n - 1), [Wait(n - 1)], p, p0, b);
        FoldOne(Wait(n - 1), p, p0, b);
      } else {
        assert WaitOps(known, n) == WaitOps(known, n - 1);
      }
    }
  }

  lemma {:induction false} FoldCloses(known: set<nat>, n: nat, p: nat, p0: nat, b: Books)
    requires p in known ==> b.stage.Open?
    ensures Fold(CloseOps(known, n), p, p0, b) == if p in known && p < n then b.(stage := Joined) else b
  {
    if n > 0 {
      FoldCloses(known, n - 1, p, p0, b);
      if n - 1 in known {
        var m := Fold(CloseOps(known, n - 1), p, p0, b);
        FoldConcat(CloseOps(known, n - 1), [End(n - 1), Join(n - 1)], p, p0, b);
        assert [End(n - 1), Join(n - 1)] == [End(n - 1)] + [Join(n - 1)];
        FoldConcat([End(n - 1)], [Join(n - 1)], p, p0, m);
        FoldOne(End(n - 1), p, p0, m);
        FoldOne(Join(n - 1), p, p0, Book(End(n - 1), p, p0, m));
      } else {
        assert CloseOps(known, n) == CloseOps(known, n - 1);
      }
    }
  }

  lemma FoldAwaited(node: Node, known: set<nat>, n: nat, p: nat, p0: nat, b: Books)
    requires !node.Normal?
    ensures Fold(Awaited(node, known, n), p, p0, b) == b
  {
    match node
    case PwaitAll => FoldWaits(known, n, p, p0, b);
    case PwaitSeconds(_) =>
    case PwaitFor(q, _) => FoldOne(Wait(q), p, p0, b);
  }

  /** The books after a barrier: everything staged is handed over, and P0 echoes the barrier. */
  lemma FoldBarrier(node: Node, known: set<nat>, n: nat, p: nat, p0: nat, b: Books)
    requires !node.Normal? && p0 in known && p < n && BooksOk(b, p, p0)
    requires b.stage == if p in known then Open else Absent
    ensures var b' := Fold(NodeOps(node, known, n, p0), p, p0, b);
      && b'.stage == b.stage && b'.staged == [] && BooksOk(b', p, p0)
      && b'.handed == Pushed(b) + if p == p0 then [Echo(node)] else []
  {
    var f, a, e := FlushOps(known, n), Awaited(node, known, n), Push(p0, Echo(node));
    var released := if p in known then b.(handed := Pushed(b), staged := []) else b;
    FoldConcat([Wait(p0)] + f + a, [e], p, p0, b);
    FoldConcat([Wait(p0)] + f, a, p, p0, b);
    FoldConcat([Wait(p0)], f, p, p0, b);
    FoldOne(Wait(p0), p, p0, b);
    FoldFlushes(known, n, p, p0, b);
    FoldAwaited(node, known, n, p, p0, released);
    FoldOne(e, p, p0, released);
    assert Pushed(b) + [] == Pushed(b);
  }

  lemma FoldNormal(node: Node, known: set<nat>, n: nat, p: nat, p0: nat, b: Books)
    requires node.Normal? && BooksOk(b, p, p0) && b.stage == if p in known then Open else Absent
    ensures var b' := Fold(NodeOps(node, known, n, p0), p, p0, b);
      && b'.stage == (if p in known + {node.p} then Open else Absent) && BooksOk(b', p, p0)
      && Pushed(b') == Pushed(b) + (if node.p == p then node.commands else [])
      && b'.handed == b.handed + (if node.p == p == p0 then node.commands else [])
  {
    var begun := if node.p in known then b else Book(Create(node.p), p, p0, b);
    var create: seq<Op> := if node.p in known then [] else [Create(node.p)];
    FoldConcat(create, PushOps(node.p, node.commands), p, p0, b);
    FoldOne(Create(node.p), p, p0, b);
    FoldPushes(node.p, node.commands, p, p0, begun);
  }

  ghost predicate ValidNodes(nodes: seq<Node>, n: nat, p0: nat) {
    && p0 < n && (nodes != [] ==> nodes[0].Normal? && nodes[0].p == p0)
    && forall i :: 0 <= i < |nodes| && nodes[i].Normal? ==> nodes[i].p < n
  }

  lemma {:induction false} P0IsKnown(nodes: seq<Node>, n: nat, p0: nat)
    requires ValidNodes(nodes, n, p0) && nodes != []
    ensures p0 in Known(nodes)
  {
    if |nodes| > 1 { P0IsKnown(nodes[..|nodes| - 1], n, p0); }
  }

  lemma {:induction false} NodesInOrder(nodes: seq<Node>, n: nat, p: nat, p0: nat)
    requires ValidNodes(nodes, n, p0) && p < n
    ensures InOrder(Fold(NodesOps(nodes, n, p0), p, p0, NO_BOOKS), nodes, p, p0)
  {
    if nodes != [] {
      var front, last := nodes[..|nodes| - 1], nodes[|nodes| - 1];
      NodesInOrder(front, n, p, p0);
      var b := Fold(NodesOps(front, n, p0), p, p0, NO_BOOKS);
      FoldConcat(NodesOps(front, n, p0), NodeOps(last, Known(front), n, p0), p, p0, NO_BOOKS);
      if last.Normal? {
        FoldNormal(last, Known(front), n, p, p0, b);
        assert Released(front, p, p0) + [] == Released(front, p, p0);
      } else {
        P0IsKnown(front, n, p0);
        FoldBarrier(last, Known(front), n, p, p0, b);
        var b' := Fold(NodesOps(nodes, n, p0), p, p0, NO_BOOKS);
        assert b'.handed + b'.staged == b'.handed;
      }
    }
  }

  /** After the whole program, every known process has been handed all its commands and joined. */
  lemma ProgramBooks(nodes: seq<Node>, n: nat, p: nat, p0: nat)
    requires ValidNodes(nodes, n, p0) && p < n
    ensures Fold(Program(nodes, n, p0), p, p0, NO_BOOKS) ==
            if p in Known(nodes) then Books(Wanted(nodes, p, p0), [], Joined) else NO_BOOKS
  {
    var known := Known(nodes);
    var a, f, w, c := NodesOps(nodes, n, p0), FlushOps(known, n), WaitOps(known, n), CloseOps(known, n);
    NodesInOrder(nodes, n, p, p0);
    var b := Fold(a, p, p0, NO_BOOKS);
    var flushed := if p in known then b.(handed := Pushed(b), staged := []) else b;
    FoldConcat(a + f + w, c, p, p0, NO_BOOKS);
    FoldConcat(a + f, w, p, p0, NO_BOOKS);
    FoldConcat(a, f, p, p0, NO_BOOKS);
    FoldFlushes(known, n, p, p0, b);
    FoldWaits(known, n, p, p0, flushed);
    FoldCloses(known, n, p, p0, flushed);
  }
}
