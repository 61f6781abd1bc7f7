/**
 One servicer feeding its laborers (src/ats2/serviceThread.cpp, src/ats2/laborerThread.cpp)
 as a transition system: the servicer runs a straight program, every laborer runs on its
 own, and any interleaving of their critical sections is a run.
 */
module Workers {
  import opened Basics
  import opened Commands

  // ---------- laborers ----------

  /** Where a laborer thread is: in `run`, at the head of `runReal`'s loop, executing a command it has popped, or returned. */
  datatype Phase = Idle | InReal | Executing(command: Command) | Done

  /** `live` is `mQuery`, `ended` is `mEnd`; `executed` and `failed` are the commands completed and the one that broke off. */
  datatype Worker = Worker(
    created: bool, phase: Phase, ended: bool, live: seq<Command>, local: Local,
    executed: seq<Command>, failed: Option<Command>)

  const NOBODY: Worker := Worker(false, Idle, false, [], FRESH, [], None)

  function InFlight(w: Worker): seq<Command> { if w.phase.Executing? then [w.phase.command] else [] }

  function BrokenOff(w: Worker): seq<Command> { if w.failed.Some? then [w.failed.value] else [] }

  /** The commands a laborer has taken from its queue. */
  function Taken(w: Worker): seq<Command> { w.executed + BrokenOff(w) + InFlight(w) }

  // ---------- the servicer's program ----------

  /** The servicer's steps; `Wait` is `Laborer::sync`. */
  datatype Op =
    | Create(p: nat)
    | Push(p: nat, command: Command)
    | Flush(p: nat)
    | Wait(p: nat)
    | End(p: nat)
    | Join(p: nat)

  /** Processes are numbered in key order; `p0` is the number of process P0. */
  datatype System = System(names: seq<string>, p0: nat, ops: seq<Op>, replies: (nat, nat) -> Reply)

  datatype State = State(pc: nat, workers: seq<Worker>, staged: seq<seq<Command>>)

  ghost predicate WellFormed(sys: System) {
    && sys.p0 < |sys.names|
    && forall i :: 0 <= i < |sys.ops| ==> sys.ops[i].p < |sys.names|
  }

  ghost predicate Shaped(sys: System, s: State) {
    |s.workers| == |s.staged| == |sys.names| && s.pc <= |sys.ops|
  }

  ghost predicate Init(sys: System, s: State) {
    && Shaped(sys, s) && s.pc == 0
    && forall p :: 0 <= p < |sys.names| ==> s.workers[p] == NOBODY && s.staged[p] == []
  }

  // ---------- steps ----------

  /** A critical section of laborer `p`, or the execution of the command it has popped. */
  ghost predicate LaborerStep(sys: System, p: nat, w: Worker, w': Worker)
    requires p < |sys.names|
  {
    && w.created
    && match w.phase
       case Idle =>
         if w.live != [] then w' == w.(phase := InReal)
         else w.ended && w' == w.(phase := Done)
       case InReal =>
         if w.live == [] then w' == w.(phase := Idle)
         else w' == w.(phase := Executing(w.live[0]), live := w.live[1..])
       case Executing(c) =>
         var out := Perform(sys.names[p], c, sys.replies(p, |w.executed|), w.local);
         if out.ok then w' == w.(phase := InReal, local := out.local, executed := w.executed + [c])
         else w' == w.(phase := Done, local := out.local, failed := Some(c), ended := true)
       case Done => false
  }

  /** What the servicer's step does to the process it names. */
  ghost predicate OpStep(sys: System, op: Op, w: Worker, st: seq<Command>, w': Worker, st': seq<Command>) {
    match op
    case Create(_) => w' == NOBODY.(created := true) && st' == []
    case Push(p, c) => if p == sys.p0 then w' == w.(live := w.live + [c]) && st' == st else w' == w && st' == st + [c]
    case Flush(_) => w' == w.(live := w.live + st) && st' == []
    case Wait(_) => (w.ended || w.live == []) && w' == w && st' == st
    case End(_) => w' == w.(ended := true) && st' == st
    case Join(_) => w.phase.Done? && w' == w && st' == st
  }

  ghost predicate OthersKept(s: State, s': State, p: nat) {
    && |s'.workers| == |s.workers| && |s'.staged| == |s.staged|
    && (forall q :: 0 <= q < |s.workers| && q != p ==> s'.workers[q] == s.workers[q])
    && (forall q :: 0 <= q < |s.staged| && q != p ==> s'.staged[q] == s.staged[q])
  }

  ghost predicate LaborerMoves(sys: System, s: State, s': State, p: nat) {
    && Shaped(sys, s) && p < |sys.names| && OthersKept(s, s', p) && s'.pc == s.pc && s'.staged[p] == s.staged[p]
    && LaborerStep(sys, p, s.workers[p], s'.workers[p])
  }

  ghost predicate ServicerMoves(sys: System, s: State, s': State) {
    && WellFormed(sys) && Shaped(sys, s) && s.pc < |sys.ops| && s'.pc == s.pc + 1
    && var p := sys.ops[s.pc].p;
      && OthersKept(s, s', p)
      && OpStep(sys, sys.ops[s.pc], s.workers[p], s.staged[p], s'.workers[p], s'.staged[p])
  }

  ghost predicate Next(sys: System, s: State, s': State) {
    ServicerMoves(sys, s, s') || exists p :: LaborerMoves(sys, s, s', p)
  }

  /** A run: any interleaving of steps, from an initial state. */
  ghost predicate IsRun(sys: System, run: seq<State>) {
    run != [] && Init(sys, run[0]) && forall i :: 0 < i < |run| ==> Next(sys, run[i - 1], run[i])
  }

  // ---------- the books of one process ----------

  datatype Stage = Absent | Open | Closing | Joined | Broken

  /** What a stretch of the servicer's program has done for one process. */
  datatype Books = Books(handed: seq<Command>, staged: seq<Command>, stage: Stage)

  const NO_BOOKS: Books := Books([], [], Absent)

  function Pushed(b: Books): seq<Command> { b.handed + b.staged }

  function Book(op: Op, p: nat, p0: nat, b: Books): Books {
    if op.p != p then b else
    match op
    case Create(_) => if b.stage.Absent? then Books([], [], Open) else b.(stage := Broken)
    case Push(_, c) =>
      if !b.stage.Open? then b.(stage := Broken)
      else if p == p0 then b.(handed := b.handed + [c]) else b.(staged := b.staged + [c])
    case Flush(_) => if !b.stage.Open? then b.(stage := Broken) else b.(handed := b.handed + b.staged, staged := [])
    case Wait(_) => b
    case End(_) => if b.stage.Open? then b.(stage := Closing) else b.(stage := Broken)
    case Join(_) => if b.stage.Closing? then b.(stage := Joined) else b.(stage := Broken)
  }

  function Fold(ops: seq<Op>, p: nat, p0: nat, b: Books): Books {
    if ops == [] then b else Fold(ops[1..], p, p0, Book(ops[0], p, p0, b))
  }

  /** The books of process `p` after the first `k` steps. */
  function BooksAt(sys: System, k: nat, p: nat): Books
    requires k <= |sys.ops|
  {
    Fold(sys.ops[..k], p, sys.p0, NO_BOOKS)
  }

  lemma {:induction false} FoldConcat(a: seq<Op>, c: seq<Op>, p: nat, p0: nat, b: Books)
    ensures Fold(a + c, p, p0, b) == Fold(c, p, p0, Fold(a, p, p0, b))
  {
    if a == [] {
      assert a + c == c;
    } else {
      assert (a + c)[0] == a[0] && (a + c)[1..] == a[1..] + c;
      FoldConcat(a[1..], c, p, p0, Book(a[0], p, p0, b));
    }
  }

  lemma BooksNext(sys: System, k: nat, p: nat)
    requires k < |sys.ops|
    ensures BooksAt(sys, k + 1, p) == Book(sys.ops[k], p, sys.p0, BooksAt(sys, k, p))
  {
    var b := BooksAt(sys, k, p);
    assert sys.ops[..k + 1] == sys.ops[..k] + [sys.ops[k]];
    FoldConcat(sys.ops[..k], [sys.ops[k]], p, sys.p0, NO_BOOKS);
    assert Fold([], p, sys.p0, Book(sys.ops[k], p, sys.p0, b)) == Book(sys.ops[k], p, sys.p0, b);
    assert [sys.ops[k]][1..] == [];
  }

  /** In a sound program every process is created once, fed while open, and ended and joined once. */
  ghost predicate Sound(sys: System) {
    WellFormed(sys) && forall p {:trigger BooksAt(sys, |sys.ops|, p)} :: 0 <= p < |sys.names| ==> !BooksAt(sys, |sys.ops|, p).stage.Broken?
  }

  ghost predicate BooksOk(b: Books, p: nat, p0: nat) {
    (b.stage.Absent? ==> b == NO_BOOKS) && (p == p0 ==> b.staged == [])
  }

  /** Nothing handed over or pushed is ever taken back. */
  ghost predicate Grows(b: Books, b': Books) {
    b.handed <= b'.handed && Pushed(b) <= Pushed(b')
  }

  lemma BookGrows(op: Op, p: nat, p0: nat, b: Books)
    requires BooksOk(b, p, p0)
    ensures var b' := Book(op, p, p0, b);
      && BooksOk(b', p, p0) && (b.stage.Broken? ==> b'.stage.Broken?) && Grows(b, b')
  {
  }

  lemma {:induction false} BooksAreOk(sys: System, k: nat, p: nat)
    requires k <= |sys.ops|
    ensures BooksOk(BooksAt(sys, k, p), p, sys.p0)
  {
    if k > 0 {
      BooksAreOk(sys, k - 1, p);
      BooksNext(sys, k - 1, p);
      BookGrows(sys.ops[k - 1], p, sys.p0, BooksAt(sys, k - 1, p));
    }
  }

  lemma GrowsTransitive(a: Books, b: Books, c: Books)
    requires Grows(a, b) && Grows(b, c)
    ensures Grows(a, c)
  {
  }

  lemma {:induction false} BooksGrow(sys: System, j: nat, k: nat, p: nat)
    requires j <= k <= |sys.ops|
    ensures Grows(BooksAt(sys, j, p), BooksAt(sys, k, p))
    ensures BooksAt(sys, j, p).stage.Broken? ==> BooksAt(sys, k, p).stage.Broken?
  {
    if j < k {
      BooksGrow(sys, j, k - 1, p);
      BooksAreOk(sys, k - 1, p);
      BooksNext(sys, k - 1, p);
      BookGrows(sys.ops[k - 1], p, sys.p0, BooksAt(sys, k - 1, p));
      GrowsTransitive(BooksAt(sys, j, p), BooksAt(sys, k - 1, p), BooksAt(sys, k, p));
    }
  }

  // ---------- the invariant ----------

  /** The commands the whole program pushes to process `p`. */
  function Script(sys: System, p: nat): seq<Command> { Pushed(BooksAt(sys, |sys.ops|, p)) }

  /** The text a laborer ends with when it executes `cmds` from number `i` on, up to the first that breaks off. */
  function FinalText(sys: System, p: nat, local: Local, cmds: seq<Command>, i: nat): string
    requires p < |sys.names|
    decreases |cmds| - i
  {
    if i >= |cmds| then local.result else
      var out := Perform(sys.names[p], cmds[i], sys.replies(p, i), local);
      if out.ok then FinalText(sys, p, out.local, cmds, i + 1) else out.local.result
  }

  /** Every command pushed is in exactly one place, in order. */
  ghost predicate Conserved(b: Books, w: Worker, st: seq<Command>) {
    st == b.staged && b.handed == Taken(w) + w.live
  }

  /** How a laborer's life follows the servicer's program. */
  ghost predicate Lives(b: Books, w: Worker) {
    && (w.created <==> !b.stage.Absent?)
    && (!w.created ==> w == NOBODY)
    && (w.ended <==> b.stage.Closing? || b.stage.Joined? || w.failed.Some?)
    && (w.phase.Done? ==> w.ended && (w.failed.None? ==> w.live == []))
    && (w.failed.Some? ==> w.phase.Done?)
    && (b.stage.Joined? ==> w.phase.Done?)
  }

  /** The laborer's text is on its way to the final one. */
  ghost predicate TextOnWay(sys: System, p: nat, w: Worker, all: seq<Command>)
    requires p < |sys.names|
  {
    var final := FinalText(sys, p, FRESH, all, 0);
    if w.failed.Some? then w.local.result == final else FinalText(sys, p, w.local, all, |w.executed|) == final
  }

  ghost predicate LaborerOk(sys: System, k: nat, p: nat, w: Worker, st: seq<Command>)
    requires k <= |sys.ops| && p < |sys.names|
  {
    var b := BooksAt(sys, k, p);
    Conserved(b, w, st) && Lives(b, w) && TextOnWay(sys, p, w, Script(sys, p))
  }

  ghost predicate Inv(sys: System, s: State) {
    && Sound(sys) && Shaped(sys, s)
    && forall p {:trigger LaborerOk(sys, s.pc, p, s.workers[p], s.staged[p])} ::
      0 <= p < |sys.names| ==> LaborerOk(sys, s.pc, p, s.workers[p], s.staged[p])
  }

  lemma InitInv(sys: System, s: State)
    requires Sound(sys) && Init(sys, s)
    ensures Inv(sys, s)
  {
  }

  /** What a laborer is about to execute is the next command of the script. */
  lemma NextOfScript(sys: System, k: nat, p: nat, w: Worker)
    requires Sound(sys) && k <= |sys.ops| && p < |sys.names|
    requires BooksAt(sys, k, p).handed == Taken(w) + w.live && w.phase.Executing? && w.failed.None?
    ensures |w.executed| < |Script(sys, p)| && Script(sys, p)[|w.executed|] == w.phase.command
  {
    BooksGrow(sys, k, |sys.ops|, p);
    var b, all := BooksAt(sys, k, p), Script(sys, p);
    assert b.handed[|w.executed|] == w.phase.command;
    assert b.handed <= Pushed(b) <= all;
  }

  lemma LaborerStepConserves(sys: System, b: Books, p: nat, w: Worker, w': Worker, st: seq<Command>)
    requires p < |sys.names| && LaborerStep(sys, p, w, w') && Conserved(b, w, st) && Lives(b, w)
    ensures Conserved(b, w', st) && Lives(b, w')
  {
  }

  lemma LaborerStepText(sys: System, k: nat, p: nat, w: Worker, w': Worker, st: seq<Command>)
    requires Sound(sys) && k <= |sys.ops| && p < |sys.names| && LaborerStep(sys, p, w, w') && LaborerOk(sys, k, p, w, st)
    ensures TextOnWay(sys, p, w', Script(sys, p))
  {
    if w.phase.Executing? {
      NextOfScript(sys, k, p, w);
    }
  }

  lemma LaborerMoveKeepsInv(sys: System, s: State, s': State, p: nat)
    requires Inv(sys, s) && LaborerMoves(sys, s, s', p)
    ensures Inv(sys, s')
  {
    forall q | 0 <= q < |sys.names|
      ensures LaborerOk(sys, s'.pc, q, s'.workers[q], s'.staged[q])
    {
      assert LaborerOk(sys, s.pc, q, s.workers[q], s.staged[q]);
      if q == p {
        LaborerStepConserves(sys, BooksAt(sys, s.pc, p), p, s.workers[p], s'.workers[p], s.staged[p]);
        LaborerStepText(sys, s.pc, p, s.workers[p], s'.workers[p], s.staged[p]);
      }
    }
  }

  lemma OpStepOk(sys: System, op: Op, b: Books, w: Worker, st: seq<Command>, w': Worker, st': seq<Command>)
    requires BooksOk(b, op.p, sys.p0) && Conserved(b, w, st) && Lives(b, w) && OpStep(sys, op, w, st, w', st')
    requires !Book(op, op.p, sys.p0, b).stage.Broken?
    ensures Conserved(Book(op, op.p, sys.p0, b), w', st') && Lives(Book(op, op.p, sys.p0, b), w')
    ensures w'.local == w.local && w'.executed == w.executed && w'.failed == w.failed
  {
  }

  lemma NotBroken(sys: System, k: nat, p: nat)
    requires Sound(sys) && k <= |sys.ops| && p < |sys.names|
    ensures !BooksAt(sys, k, p).stage.Broken?
  {
    BooksGrow(sys, k, |sys.ops|, p);
  }

  lemma ServicerKeepsLaborer(sys: System, s: State, s': State, q: nat)
    requires Inv(sys, s) && ServicerMoves(sys, s, s') && q < |sys.names|
    ensures LaborerOk(sys, s'.pc, q, s'.workers[q], s'.staged[q])
  {
    var op := sys.ops[s.pc];
    assert LaborerOk(sys, s.pc, q, s.workers[q], s.staged[q]);
    BooksNext(sys, s.pc, q);
    if q == op.p {
      NotBroken(sys, s.pc + 1, q);
      BooksAreOk(sys, s.pc, q);
      OpStepOk(sys, op, BooksAt(sys, s.pc, q), s.workers[q], s.staged[q], s'.workers[q], s'.staged[q]);
    }
  }

  lemma ServicerMoveKeepsInv(sys: System, s: State, s': State)
    requires Inv(sys, s) && ServicerMoves(sys, s, s')
    ensures Inv(sys, s')
  {
    forall q | 0 <= q < |sys.names|
      ensures LaborerOk(sys, s'.pc, q, s'.workers[q], s'.staged[q])
    {
      ServicerKeepsLaborer(sys, s, s', q);
    }
  }

  lemma {:induction false} RunInv(sys: System, run: seq<State>, i: nat)
    requires Sound(sys) && IsRun(sys, run) && i < |run|
    ensures Inv(sys, run[i])
  {
    if i == 0 {
      InitInv(sys, run[0]);
    } else {
      RunInv(sys, run, i - 1);
      assert Next(sys, run[i - 1], run[i]);
      if ServicerMoves(sys, run[i - 1], run[i]) {
        ServicerMoveKeepsInv(sys, run[i - 1], run[i]);
      } else {
        var p :| LaborerMoves(sys, run[i - 1], run[i], p);
        LaborerMoveKeepsInv(sys, run[i - 1], run[i], p);
      }
    }
  }
}
