/**
 The objects behind the transition system: `Laborer` with its guarded queue
 (src/ats2/laborerThread.cpp) and `Servicer` with its staged lists (src/ats2/serviceThread.cpp).
 Each method is one critical section, or the execution of one popped command, and makes exactly
 the step of the transition system it stands for.
 */
module Laborers {
  import opened Basics
  import opened Commands
  import opened Workers

  /** `QueryList`: the staged commands of one process. */
  class QueryList {
    var commands: seq<Command>

    constructor ()
      ensures commands == []
    {
      commands := [];
    }
  }

  class Laborer {
    const sys: System
    const p: nat
    var mQuery: seq<Command>
    var mEnd: bool
    var mResult: string
    var mSbegin: bool
    var mRetry: bool
    var mLogon: bool
    ghost var phase: Phase
    ghost var executed: seq<Command>
    ghost var failed: Option<Command>

    ghost predicate Valid()
      reads this
    {
      WellFormed(sys) && p < |sys.names|
    }

    ghost function LocalView(): Local
      reads this
    {
      Local(mResult, mSbegin, mRetry, mLogon)
    }

    ghost function View(): Worker
      reads this
    {
      Worker(true, phase, mEnd, mQuery, LocalView(), executed, failed)
    }

    constructor (sys: System, p: nat)
      requires WellFormed(sys) && p < |sys.names|
      ensures this.sys == sys && this.p == p && Valid()
      ensures forall before, st :: OpStep(sys, Create(p), NOBODY, before, View(), st) <==> st == []
    {
      this.sys, this.p := sys, p;
      mQuery, mEnd, mResult, mSbegin, mRetry, mLogon := [], false, "", false, true, false;
      phase, executed, failed := Idle, [], None;
    }

    /** `push_back` of one command, as the servicer does for P0. */
    method PushBack(c: Command)
      requires Valid() && p == sys.p0
      modifies this
      ensures Valid() && forall st :: OpStep(sys, Push(p, c), old(View()), st, View(), st)
    {
      mQuery := mQuery + [c];
    }

    /** `push_back` of a staged list, which is emptied. */
    method PushBackAll(list: QueryList)
      requires Valid()
      modifies this`mQuery, list
      ensures Valid() && OpStep(sys, Flush(p), old(View()), old(list.commands), View(), list.commands)
    {
      var i := 0;
      while i < |list.commands|
        invariant 0 <= i <= |list.commands| && list.commands == old(list.commands)
        invariant View() == old(View()).(live := old(mQuery) + list.commands[..i])
      {
        mQuery := mQuery + [list.commands[i]];
        i := i + 1;
      }
      list.commands := [];
    }

    method End()
      requires Valid()
      modifies this`mEnd
      ensures Valid() && forall st :: OpStep(sys, Workers.End(p), old(View()), st, View(), st)
    {
      mEnd := true;
    }

    /** One turn of `sync`: whether it may return. */
    method SyncTurn() returns (go: bool)
      requires Valid()
      ensures forall st :: go <==> OpStep(sys, Wait(p), View(), st, View(), st)
    {
      if mEnd { return true; }
      go := |mQuery| == 0;
    }

    /** One turn of `run`: sleep, call `runReal`, or return. */
    method RunTurn() returns (moved: bool)
      requires Valid() && phase.Idle?
      modifies this`phase
      ensures Valid() && if moved then LaborerStep(sys, p, old(View()), View()) else View() == old(View()) && !mEnd && mQuery == []
    {
      if !mEnd && |mQuery| == 0 { return false; }
      phase := if |mQuery| != 0 then InReal else Done;
      moved := true;
    }

    /** The guarded head of `runReal`'s loop: take the first command, or leave. */
    method PopFront() returns (c: Option<Command>)
      requires Valid() && phase.InReal?
      modifies this`phase, this`mQuery
      ensures Valid() && LaborerStep(sys, p, old(View()), View())
      ensures c == if old(mQuery) == [] then None else Some(old(mQuery)[0])
    {
      if |mQuery| == 0 {
        phase := Idle;
        return None;
      }
      c := Some(mQuery[0]);
      mQuery := mQuery[1..];
      phase := Executing(c.value);
    }

    /** The outcome of a command once its failure, if any, has been reported. */
    ghost function Reported(c: Command, r: Reply, ok: bool): Outcome
      requires Valid()
      reads this
    {
      if ok then Outcome(LocalView(), true) else Failed(sys.names[p], c, LocalView(), r)
    }

    /** A query: log on first if need be, and once more when the connection was lost. */
    method ExecuteQuery(c: Command, r: Reply) returns (ok: bool)
      requires c.Query? && Valid()
      modifies this`mResult, this`mLogon
      ensures Reported(c, r, ok) == PerformQuery(sys.names[p], c, r, old(LocalView()))
    {
      if !mLogon {
        mLogon := true;
        if !r.logonOk { return false; }
      }
      if !r.executeOk { return false; }
      var answer := r.shown;
      if r.connectionLost && mRetry {
        if !r.relogonOk || !r.reexecuteOk { return false; }
        answer := r.reshown;
      }
      if mSbegin {
        answer := "$" + sys.names[p] + "> " + Terminated(c.text);
      }
      mResult := mResult + answer;
      ok := true;
    }

    /** The switch over the command just popped. */
    method Switch(c: Command, r: Reply) returns (ok: bool)
      requires Valid()
      modifies this`mResult, this`mLogon, this`mRetry, this`mSbegin
      ensures Reported(c, r, ok) == Perform(sys.names[p], c, r, old(LocalView()))
    {
      ok := true;
      match c {
        case Plain(text) =>
          mResult := mResult + text;
        case Restart(text, on) =>
          mResult := mResult + text;
          mRetry := on;
        case Skip(begin) =>
          mResult := mResult + if begin then "--+SKIP BEGIN; " else "--+SKIP END; ";
          mSbegin := begin;
        case Query(_, _) =>
          ok := ExecuteQuery(c, r);
      }
    }

    /** The execution of the command just popped, and the report of its failure. */
    method Execute(c: Command, r: Reply) returns (ok: bool)
      requires Valid() && phase == Executing(c) && failed.None? && r == sys.replies(p, |executed|)
      modifies this`mResult, this`mLogon, this`mRetry, this`mSbegin, this`mEnd, this`phase, this`executed, this`failed
      ensures Valid() && LaborerStep(sys, p, old(View()), View()) && (ok <==> phase.InReal?)
    {
      ok := Switch(c, r);
      if ok {
        executed := executed + [c];
        phase := InReal;
      } else {
        mEnd := true;
        mResult := mResult + Status(sys.names[p], c) + "\n" + r.failure;
        failed := Some(c);
        phase := Done;
      }
    }

    /** `runReal` while nobody else touches the queue: everything live is executed, up to the first command that breaks off. */
    method RunReal(first: nat)
      requires Valid() && phase.InReal? && failed.None? && first == |executed|
      modifies this
      ensures Valid() && executed + BrokenOff(View()) + mQuery == old(executed + mQuery)
      ensures if failed.None? then phase.Idle? && mQuery == [] && mEnd == old(mEnd) else phase.Done? && mEnd
      ensures mResult == FinalText(sys, p, old(LocalView()), old(executed + mQuery), old(|executed|))
    {
      ghost var all, local := executed + mQuery, LocalView();
      var k := first;
      var more := true;
      while more
        invariant Valid() && (more ==> Draining(all) && k == |executed| && mEnd == old(mEnd))
        invariant more ==> FinalText(sys, p, LocalView(), all, k) == FinalText(sys, p, local, all, first)
        invariant !more ==> Drained(all, old(mEnd)) && mResult == FinalText(sys, p, local, all, first)
        decreases more, |mQuery|
      {
        more := NextCommand(k, all);
        k := k + 1;
      }
    }

    /** Between two commands of `all`. */
    ghost predicate Draining(all: seq<Command>)
      reads this
    {
      phase.InReal? && failed.None? && executed + mQuery == all
    }

    /** All commands are executed, or one has broken off. */
    ghost predicate Drained(all: seq<Command>, end: bool)
      reads this
    {
      && executed + BrokenOff(View()) + mQuery == all
      && if failed.None? then phase.Idle? && mQuery == [] && mEnd == end else phase.Done? && mEnd
    }

    /** One turn of the loop. */
    method NextCommand(k: nat, ghost all: seq<Command>) returns (more: bool)
      requires Valid() && Draining(all) && k == |executed|
      modifies this
      ensures Valid()
      ensures more ==> Draining(all) && |executed| == k + 1 && |mQuery| < |old(mQuery)| && mEnd == old(mEnd)
      ensures more ==> FinalText(sys, p, LocalView(), all, k + 1) == FinalText(sys, p, old(LocalView()), all, k)
      ensures !more ==> Drained(all, old(mEnd)) && mResult == FinalText(sys, p, old(LocalView()), all, k)
    {
      assert mQuery != [] ==> all[k] == mQuery[0];
      assert mQuery != [] ==> executed + [mQuery[0]] + mQuery[1..] == all;
      var c := PopFront();
      if c.None? { return false; }
      more := Execute(c.value, sys.replies(p, k));
    }

    method GetResult() returns (s: string)
      modifies this`mResult
      ensures s == old(View()).local.result
      ensures View() == old(View()).(local := old(LocalView()).(result := ""))
    {
      s := mResult;
      mResult := "";
    }
  }

  /** The servicer's tables: `mLaborer` and `mQuery`, by process number. */
  class Servicer {
    const sys: System
    var mLaborer: seq<Laborer?>
    var mQuery: seq<QueryList>

    ghost predicate Valid()
      reads this, mLaborer, mQuery
    {
      && WellFormed(sys) && |mLaborer| == |mQuery| == |sys.names|
      && (forall p :: 0 <= p < |mLaborer| && mLaborer[p] != null ==> mLaborer[p].sys == sys && mLaborer[p].p == p)
      && (forall p, q :: 0 <= p < q < |mQuery| ==> mQuery[p] != mQuery[q])
    }

    ghost function ViewOf(p: nat): Worker
      requires p < |mLaborer|
      reads this, mLaborer[p]
    {
      if mLaborer[p] == null then NOBODY else mLaborer[p].View()
    }

    ghost function Staged(p: nat): seq<Command>
      requires p < |mQuery|
      reads this, mQuery[p]
    {
      mQuery[p].commands
    }

    /** The laborer of `p`, if there is one, has been handed its staged list. */
    ghost predicate HandedOver(p: nat, w: Worker, st: seq<Command>)
      requires p < |mLaborer| == |mQuery|
      reads this, mLaborer[p], mQuery[p]
    {
      if mLaborer[p] == null then Staged(p) == st else OpStep(sys, Flush(p), w, st, ViewOf(p), Staged(p))
    }

    /** `push_back`: straight to P0, and to the staged list of any other process. */
    method PushBack(p: nat, c: Command)
      requires Valid() && p < |mLaborer| && mLaborer[p] != null
      modifies mLaborer[p], mQuery[p]
      ensures Valid()
      ensures OpStep(sys, Push(p, c), old(ViewOf(p)), old(Staged(p)), ViewOf(p), Staged(p))
    {
      if p == sys.p0 {
        mLaborer[p].PushBack(c);
      } else {
        mQuery[p].commands := mQuery[p].commands + [c];
      }
    }

    method HandOver(p: nat)
      requires Valid() && p < |mLaborer|
      modifies mLaborer[p], mQuery[p]
      ensures Valid() && HandedOver(p, old(ViewOf(p)), old(Staged(p)))
    {
      if mLaborer[p] != null {
        mLaborer[p].PushBackAll(mQuery[p]);
      }
    }

    /** The loop of `sync` and `async` that hands every staged list over, in key order. */
    method Release()
      requires Valid()
      modifies (set l: Laborer | l in mLaborer), mQuery
      ensures Valid()
      ensures forall p :: 0 <= p < |mLaborer| ==> HandedOver(p, old(ViewOf(p)), old(Staged(p)))
    {
      for p := 0 to |mLaborer|
        invariant Valid()
        invariant forall q :: 0 <= q < p ==> HandedOver(q, old(ViewOf(q)), old(Staged(q)))
        invariant forall q :: p <= q < |mLaborer| ==> ViewOf(q) == old(ViewOf(q)) && Staged(q) == old(Staged(q))
      {
        HandOver(p);
      }
    }
  }
}
