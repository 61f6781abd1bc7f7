/**
 Every run of a sound program is finite, with a bound known beforehand, and no reachable state
 short of the end of the program is stuck: whatever the schedule, the servicer gets there.
 The laborers' and the servicer's sleeping while nothing has changed is no step.
 */
module WorkerProgress {
  import opened Basics
  import opened Commands
  import opened Workers

  // ---------- no deadlock ----------

  function Alone(s: State, p: nat, w: Worker): State
    requires p < |s.workers|
  {
    s.(workers := s.workers[p := w])
  }

  /** A laborer with work, or told to end, can always go on until it has returned. */
  lemma LaborerCanMove(sys: System, s: State, p: nat) returns (s': State)
    requires Shaped(sys, s) && p < |sys.names| && s.workers[p].created && !s.workers[p].phase.Done?
    requires s.workers[p].live != [] || s.workers[p].ended
    ensures Next(sys, s, s')
  {
    var w := s.workers[p];
    var w' := match w.phase
      case Idle => w.(phase := if w.live != [] then InReal else Done)
      case InReal =>
        if w.live == [] then w.(phase := Idle) else w.(phase := Executing(w.live[0]), live := w.live[1..])
      case Executing(c) =>
        var out := Perform(sys.names[p], c, sys.replies(p, |w.executed|), w.local);
        if out.ok then w.(phase := InReal, local := out.local, executed := w.executed + [c])
        else w.(phase := Done, local := out.local, failed := Some(c), ended := true);
    assert LaborerStep(sys, p, w, w');
    s' := Alone(s, p, w');
    assert LaborerMoves(sys, s, s', p);
  }

  lemma ServicerCanMove(sys: System, s: State) returns (s': State)
    requires WellFormed(sys) && Shaped(sys, s) && s.pc < |sys.ops|
    requires var op := sys.ops[s.pc]; var w := s.workers[op.p];
      (op.Wait? ==> w.ended || w.live == []) && (op.Join? ==> w.phase.Done?)
    ensures Next(sys, s, s')
  {
    var op := sys.ops[s.pc];
    var p := op.p;
    var w, st := s.workers[p], s.staged[p];
    var w' := match op
      case Create(_) => NOBODY.(created := true)
      case Push(_, c) => if p == sys.p0 then w.(live := w.live + [c]) else w
      case Flush(_) => w.(live := w.live + st)
      case Wait(_) => w
      case End(_) => w.(ended := true)
      case Join(_) => w;
    var st' := match op
      case Create(_) => []
      case Push(_, c) => if p == sys.p0 then st else st + [c]
      case Flush(_) => []
      case Wait(_) => st
      case End(_) => st
      case Join(_) => st;
    assert OpStep(sys, op, w, st, w', st');
    s' := State(s.pc + 1, s.workers[p := w'], s.staged[p := st']);
    assert ServicerMoves(sys, s, s');
  }

  /** No reachable state before the end of the program is stuck. */
  lemma NoDeadlock(sys: System, run: seq<State>, i: nat) returns (s': State)
    requires Sound(sys) && IsRun(sys, run) && i < |run| && run[i].pc < |sys.ops|
    ensures Next(sys, run[i], s')
  {
    var s := run[i];
    RunInv(sys, run, i);
    var op := sys.ops[s.pc];
    var w := s.workers[op.p];
    assert LaborerOk(sys, s.pc, op.p, w, s.staged[op.p]);
    BooksNext(sys, s.pc, op.p);
    NotBroken(sys, s.pc + 1, op.p);
    if (op.Wait? && !w.ended && w.live != []) || (op.Join? && !w.phase.Done?) {
      s' := LaborerCanMove(sys, s, op.p);
    } else {
      s' := ServicerCanMove(sys, s);
    }
  }

  // ---------- a bound on every run ----------

  /** How far a laborer is from resting. */
  function Rank(w: Worker): nat {
    match w.phase
    case Executing(_) => 3
    case Idle => if w.live == [] then 1 else 2
    case InReal => if w.live == [] then 2 else 1
    case Done => 0
  }

  /** What is left for a laborer to do: four steps at most for each command not yet taken. */
  function Left(sys: System, p: nat, w: Worker): int {
    4 * (|Script(sys, p)| - |Taken(w)|) + Rank(w)
  }

  function LeftUpTo(sys: System, s: State, n: nat): int
    requires n <= |s.workers|
  {
    if n == 0 then 0 else LeftUpTo(sys, s, n - 1) + Left(sys, n - 1, s.workers[n - 1])
  }

  function Work(sys: System, s: State): int
    requires Shaped(sys, s)
  {
    4 * (|sys.ops| - s.pc) + LeftUpTo(sys, s, |s.workers|)
  }

  lemma {:induction false} OneLaborerMoves(sys: System, s: State, s': State, p: nat, n: nat)
    requires OthersKept(s, s', p) && n <= |s.workers|
    ensures LeftUpTo(sys, s', n) - LeftUpTo(sys, s, n) ==
            if p < n then Left(sys, p, s'.workers[p]) - Left(sys, p, s.workers[p]) else 0
  {
    if n > 0 { OneLaborerMoves(sys, s, s', p, n - 1); }
  }

  lemma {:induction false} LeftIsNatural(sys: System, s: State, n: nat)
    requires Inv(sys, s) && n <= |s.workers|
    ensures LeftUpTo(sys, s, n) >= 0
  {
    if n > 0 {
      LeftIsNatural(sys, s, n - 1);
      TakenIsBounded(sys, s, n - 1);
    }
  }

  lemma TakenIsBounded(sys: System, s: State, p: nat)
    requires Inv(sys, s) && p < |sys.names|
    ensures |Taken(s.workers[p])| <= |Script(sys, p)|
  {
    assert LaborerOk(sys, s.pc, p, s.workers[p], s.staged[p]);
    BooksGrow(sys, s.pc, |sys.ops|, p);
  }

  lemma LaborerStepWorks(sys: System, p: nat, w: Worker, w': Worker)
    requires p < |sys.names| && LaborerStep(sys, p, w, w') && (w.failed.Some? ==> w.phase.Done?)
    ensures Left(sys, p, w') < Left(sys, p, w)
  {
  }

  lemma OpStepWorks(sys: System, op: Op, w: Worker, st: seq<Command>, w': Worker, st': seq<Command>)
    requires OpStep(sys, op, w, st, w', st') && (op.Create? ==> w == NOBODY)
    ensures Left(sys, op.p, w') <= Left(sys, op.p, w) + 1
  {
  }

  lemma ServicerUsesUpWork(sys: System, s: State, s': State)
    requires Inv(sys, s) && ServicerMoves(sys, s, s')
    ensures Shaped(sys, s') && Work(sys, s') < Work(sys, s)
  {
    var p := sys.ops[s.pc].p;
    assert sys.ops[s.pc].Create? ==> s.workers[p] == NOBODY by {
      assert LaborerOk(sys, s.pc, p, s.workers[p], s.staged[p]);
      BooksNext(sys, s.pc, p);
      NotBroken(sys, s.pc + 1, p);
    }
    OpStepWorks(sys, sys.ops[s.pc], s.workers[p], s.staged[p], s'.workers[p], s'.staged[p]);
    OneLaborerMoves(sys, s, s', p, |s.workers|);
  }

  lemma LaborerUsesUpWork(sys: System, s: State, s': State, p: nat)
    requires Inv(sys, s) && LaborerMoves(sys, s, s', p)
    ensures Shaped(sys, s') && Work(sys, s') < Work(sys, s)
  {
    assert LaborerOk(sys, s.pc, p, s.workers[p], s.staged[p]);
    LaborerStepWorks(sys, p, s.workers[p], s'.workers[p]);
    OneLaborerMoves(sys, s, s', p, |s.workers|);
  }

  /** Every step uses up work. */
  lemma StepsUseUpWork(sys: System, s: State, s': State)
    requires Inv(sys, s) && Next(sys, s, s')
    ensures Shaped(sys, s') && Work(sys, s') < Work(sys, s)
  {
    if ServicerMoves(sys, s, s') {
      ServicerUsesUpWork(sys, s, s');
    } else {
      var p: nat :| LaborerMoves(sys, s, s', p);
      LaborerUsesUpWork(sys, s, s', p);
    }
  }

  /** The bound, from the program alone: four for each of its steps and each command, and one for each process. */
  function Bound(sys: System, n: nat): nat {
    if n == 0 then 4 * |sys.ops| else Bound(sys, n - 1) + 4 * |Script(sys, n - 1)| + 1
  }

  lemma {:induction false} WorkAtFirst(sys: System, s: State, n: nat)
    requires Init(sys, s) && n <= |sys.names|
    ensures 4 * |sys.ops| + LeftUpTo(sys, s, n) == Bound(sys, n)
  {
    if n > 0 {
      WorkAtFirst(sys, s, n - 1);
      assert s.workers[n - 1] == NOBODY && Taken(NOBODY) == [];
    }
  }

  lemma {:induction false} WorkAfter(sys: System, run: seq<State>, i: nat)
    requires Sound(sys) && IsRun(sys, run) && i < |run|
    ensures Shaped(sys, run[i]) && i + Work(sys, run[i]) <= Bound(sys, |sys.names|)
  {
    RunInv(sys, run, i);
    if i == 0 {
      WorkAtFirst(sys, run[0], |sys.names|);
    } else {
      WorkAfter(sys, run, i - 1);
      RunInv(sys, run, i - 1);
      assert Next(sys, run[i - 1], run[i]);
      StepsUseUpWork(sys, run[i - 1], run[i]);
    }
  }

  /** However the laborers are scheduled, a run has at most the given number of steps. */
  lemma RunsAreBounded(sys: System, run: seq<State>)
    requires Sound(sys) && IsRun(sys, run)
    ensures |run| - 1 <= Bound(sys, |sys.names|)
  {
    WorkAfter(sys, run, |run| - 1);
    RunInv(sys, run, |run| - 1);
    LeftIsNatural(sys, run[|run| - 1], |sys.names|);
  }

  /** From wherever a run has got to, it can be carried on to the end of the program. */
  lemma {:induction false} EveryRunCanComplete(sys: System, run: seq<State>) returns (full: seq<State>)
    requires Sound(sys) && IsRun(sys, run)
    ensures run <= full && IsRun(sys, full) && full[|full| - 1].pc == |sys.ops|
    decreases Bound(sys, |sys.names|) - |run|
  {
    var last := run[|run| - 1];
    RunInv(sys, run, |run| - 1);
    RunsAreBounded(sys, run);
    if last.pc == |sys.ops| {
      full := run;
    } else {
      var s' := NoDeadlock(sys, run, |run| - 1);
      RunsAreBounded(sys, run + [s']);
      full := EveryRunCanComplete(sys, run + [s']);
    }
  }
}
