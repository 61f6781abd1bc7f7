/**
 `executeArtTest` and the methods it calls, as a laborer runs them when no other laborer comes
 between: each access to the flags is the step of the interleaving model that it stands for.
 */
module ArtLaborers {
  import opened ArtFlags

  /** `queryData`: the text of a query, and whether it is a recovery-point command. */
  datatype Query = Query(text: string, recpoint: bool)

  /** What the server and its log answer during one query, and the runner's text at its first error and in the end. */
  datatype Answers = Answers(
    logon: bool, logonAgain: bool, executed: Outcome, retried: bool, recPointKill: bool, logonAfterBug: bool,
    firstText: string, lastText: string) {

    /** The server was lost to a recovery point, and stayed so at the retry. */
    predicate Killed() { executed.Lost? && !retried && recPointKill }

    /** A query whose connection was lost does not fail. */
    predicate Rescued(q: Query) { retried || recPointKill || q.recpoint || logonAfterBug }
  }

  class Servicer {
    const mAtsTestKind: TestKind
    var mFatal: bool
    var mIsHit: bool
    var mIsCrash: bool
    var mIsArtRestart: bool
    ghost var sawKill: bool

    ghost function View(): Flags
      reads this
    {
      Flags(mIsHit, mIsCrash, mIsArtRestart, sawKill)
    }

    constructor (kind: TestKind)
      ensures View() == NO_FLAGS && mAtsTestKind == kind && !mFatal
    {
      mAtsTestKind, mFatal := kind, false;
      mIsHit, mIsCrash, mIsArtRestart, sawKill := false, false, false, false;
    }
  }

  /** Several steps of one laborer on its own. */
  function Drive(p0: bool, f: Flags, l: Laborer, choices: seq<Choice>): (Flags, Laborer) {
    if choices == [] then (f, l) else
      var (f1, l1) := Drive(p0, f, l, choices[..|choices| - 1]);
      Step(p0, f1, l1, choices[|choices| - 1])
  }

  lemma DrivePush(p0: bool, f: Flags, l: Laborer, choices: seq<Choice>, c: Choice)
    ensures var (f1, l1) := Drive(p0, f, l, choices); Drive(p0, f, l, choices + [c]) == Step(p0, f1, l1, c)
  {
  }

  class ArtLaborer {
    const servicer: Servicer
    const mProcess: string
    const p0: bool := mProcess == "P0"
    var mQuery: seq<Query>
    var mResult: string
    var mSbegin: bool
    var mLogon: bool
    ghost var place: Place
    ghost var recpoint: bool
    ghost var was: (Flags, Laborer)
    ghost var choices: seq<Choice>

    ghost function View(): Laborer
      reads this
    {
      Laborer(place, mLogon, recpoint)
    }

    /** What has happened since `was` is a series of steps of the model. */
    ghost predicate Tracks()
      reads this, servicer
    {
      Drive(p0, was.0, was.1, choices) == (servicer.View(), View())
    }

    constructor (servicer: Servicer, process: string)
      ensures this.servicer == servicer && mProcess == process && View() == FRESH
      ensures mQuery == [] && mResult == "" && !mSbegin
    {
      this.servicer, mProcess, mQuery, mResult, mSbegin, mLogon := servicer, process, [], "", false, false;
      place, recpoint, was, choices := Ready, false, (NO_FLAGS, FRESH), [];
    }

    /** Record one step of the model, which the fields have just made. */
    ghost method Record(c: Choice, f: Flags, l: Laborer)
      requires Drive(p0, was.0, was.1, choices) == (f, l) && Step(p0, f, l, c) == (servicer.View(), View())
      modifies this`choices
      ensures Tracks()
    {
      DrivePush(p0, was.0, was.1, choices, c);
      choices := choices + [c];
    }

    /** `logon`: only the first try reaches the server. */
    method Logon(answer: bool) returns (ok: bool)
      modifies this`mLogon
      ensures mLogon && ok == (old(mLogon) || answer)
    {
      if !mLogon {
        mLogon := true;
        return answer;
      }
      ok := true;
    }

    /** `cleanServer`, which only P0 calls. */
    method CleanServer()
      requires Tracks() && place.Cleaning?
      modifies this`mLogon, this`place, this`choices, servicer`mIsCrash
      ensures Tracks() && place.LoggingAgain? && recpoint == old(recpoint)
      ensures servicer.View() == old(servicer.View()).(crash := true) && !mLogon
    {
      ghost var f, l := servicer.View(), View();
      servicer.mIsCrash := true;
      mLogon := false;
      place := LoggingAgain;
      Record(Choice(Good, false), f, l);
    }

    /** One call of `logon` while a restart is pending; after a failed first call P0 cleans the server up. */
    method LogonAfterRestart(answer: bool) returns (ok: bool)
      requires Tracks() && (place.Restarted? || place.LoggingAgain?)
      modifies this`mLogon, this`place, this`choices
      ensures Tracks() && mLogon && ok == (old(mLogon) || answer)
      ensures place == if ok then ClearingRestart
                       else if old(place).LoggingAgain? then Failed else if p0 then Cleaning else LoggingAgain
    {
      ghost var f, l := servicer.View(), View();
      ok := Logon(answer);
      place := if ok then ClearingRestart else if place.LoggingAgain? then Failed else if p0 then Cleaning else LoggingAgain;
      Record(Choice(if answer then Good else Bad, false), f, l);
    }

    /** Only P0 takes the flag back. */
    method TakeRestartBack()
      requires Tracks() && place.ClearingRestart?
      modifies this`place, this`choices, servicer`mIsArtRestart
      ensures Tracks() && place == Executing(recpoint) && servicer.mIsArtRestart == (old(servicer.mIsArtRestart) && !p0)
    {
      ghost var f, l := servicer.View(), View();
      if p0 { servicer.mIsArtRestart := false; }
      place := Executing(recpoint);
      Record(Choice(Good, false), f, l);
    }

    /** The branch for a pending restart. */
    method AfterRestart(a: Answers) returns (ok: bool)
      requires Tracks() && place.Restarted?
      modifies this`mLogon, this`place, this`choices, servicer`mIsCrash, servicer`mIsArtRestart
      ensures Tracks() && (if ok then place == Executing(old(recpoint)) else place.Failed?)
      ensures servicer.mIsArtRestart == (old(servicer.mIsArtRestart) && !(p0 && ok))
      ensures servicer.mIsHit == old(servicer.mIsHit) && servicer.sawKill == old(servicer.sawKill)
      ensures servicer.mIsCrash == (old(servicer.mIsCrash) || (p0 && !old(mLogon) && !a.logon))
      ensures ok <==> !p0 || old(mLogon) || a.logon || a.logonAgain
    {
      ok := LogonAfterRestart(a.logon);
      if !ok {
        if p0 { CleanServer(); }
        ok := LogonAfterRestart(a.logonAgain);
      }
      if ok { TakeRestartBack(); }
    }

    /** The hit is set when the kill has been seen, and the restart asked for after that. */
    method ReportKill()
      requires Tracks() && place.SettingHit?
      modifies this`mLogon, this`place, this`choices, servicer`mIsHit, servicer`mIsArtRestart
      ensures Tracks() && place.Ready?
      ensures servicer.View() == old(servicer.View()).(hit := true, restart := true)
    {
      ghost var f, l := servicer.View(), View();
      servicer.mIsHit := true;
      place := SettingRestart;
      Record(Choice(Good, false), f, l);
      f, l := servicer.View(), View();
      servicer.mIsArtRestart := true;
      mLogon := false;
      place := Ready;
      Record(Choice(Good, false), f, l);
    }

    /** In full mode a point that has killed the server is set again, before all other queries. */
    function Reactivated(killed: bool, recPtr: Query): seq<Query> {
      if killed && servicer.mAtsTestKind.Full? then [recPtr] else []
    }

    /** `checkServer` and, after a bug, the new logon of a query. */
    method CheckServer(q: Query, a: Answers) returns (ok: bool)
      requires Tracks() && place == Checking(q.recpoint)
      modifies this`place, this`choices, servicer`sawKill
      ensures Tracks() && ok == (a.recPointKill || q.recpoint || a.logonAfterBug)
      ensures place == if a.recPointKill then SettingHit else if ok then Ready else Failed
      ensures servicer.sawKill == (old(servicer.sawKill) || a.recPointKill)
    {
      ghost var f, l := servicer.View(), View();
      ok := a.recPointKill || q.recpoint || a.logonAfterBug;
      servicer.sawKill := servicer.sawKill || a.recPointKill;
      place := if a.recPointKill then SettingHit else if ok then Ready else Failed;
      Record(Choice(if a.recPointKill then Good else if a.logonAfterBug then Bad else Lost, false), f, l);
    }

    /** `doCheckServer4ART`: a recovery-point kill is a hit and asks for a restart; a bug needs a new logon. */
    method DoCheckServer4ART(q: Query, recPtr: Query, a: Answers) returns (ok: bool)
      requires Tracks() && place == Checking(q.recpoint)
      modifies this`mLogon, this`place, this`choices, this`mQuery, servicer`sawKill, servicer`mIsHit, servicer`mIsArtRestart
      ensures Tracks() && (if ok then place.Ready? else place.Failed?)
      ensures ok <==> a.recPointKill || q.recpoint || a.logonAfterBug
      ensures mQuery == (if a.recPointKill && servicer.mAtsTestKind.Full? then [recPtr] else []) + old(mQuery)
      ensures if a.recPointKill then servicer.View() == Flags(true, old(servicer.mIsCrash), true, true)
              else servicer.View() == old(servicer.View())
    {
      ok := CheckServer(q, a);
      if a.recPointKill {
        ReportKill();
        if servicer.mAtsTestKind.Full? { mQuery := [recPtr] + mQuery; }
      }
    }

    /** `retryExecution4ART`. */
    method RetryExecution4ART(q: Query, recPtr: Query, a: Answers) returns (ok: bool)
      requires Tracks() && place == Retrying(q.recpoint)
      modifies this`mLogon, this`place, this`choices, this`mQuery, servicer`sawKill, servicer`mIsHit, servicer`mIsArtRestart
      ensures Tracks() && (if ok then place.Ready? else place.Failed?)
      ensures ok <==> a.Rescued(q)
      ensures mQuery == Reactivated(!a.retried && a.recPointKill, recPtr) + old(mQuery)
      ensures if !a.retried && a.recPointKill then servicer.View() == Flags(true, old(servicer.mIsCrash), true, true)
              else servicer.View() == old(servicer.View())
    {
      ghost var f, l := servicer.View(), View();
      place := if a.retried then Ready else Checking(q.recpoint);
      Record(Choice(if a.retried then Good else Lost, false), f, l);
      ok := true;
      if !a.retried {
        ok := DoCheckServer4ART(q, recPtr, a);
      }
    }

    /** The branch when no restart is pending: without a logon only a recovery-point command goes on. */
    method PlainLogon(rec: bool, a: Answers) returns (ok: bool)
      requires Tracks() && place == LoggingOn(rec)
      modifies this`mLogon, this`place, this`choices
      ensures Tracks() && (if ok then place == Executing(rec) else place.Failed?)
      ensures ok <==> old(mLogon) || a.logon || rec
    {
      ghost var f, l := servicer.View(), View();
      ok := Logon(a.logon);
      ok := ok || rec;
      place := if ok then Executing(rec) else Failed;
      Record(Choice(if a.logon then Good else Bad, false), f, l);
    }

    method RunnerExecute(q: Query, a: Answers)
      requires Tracks() && place == Executing(q.recpoint)
      modifies this`place, this`choices
      ensures Tracks() && place == match a.executed case Good => Ready case Bad => Failed case Lost => Asserting(q.recpoint)
    {
      ghost var f, l := servicer.View(), View();
      place := match a.executed case Good => Ready case Bad => Failed case Lost => Asserting(q.recpoint);
      Record(Choice(a.executed, false), f, l);
    }

    /** `aborted` is the assertion failing. */
    method AssertNoRestart(q: Query) returns (aborted: bool)
      requires Tracks() && place == Asserting(q.recpoint)
      modifies this`place, this`choices
      ensures Tracks() && aborted == servicer.mIsArtRestart && place == if aborted then Aborted else Retrying(q.recpoint)
    {
      ghost var f, l := servicer.View(), View();
      aborted := servicer.mIsArtRestart;
      place := if aborted then Aborted else Retrying(q.recpoint);
      Record(Choice(Good, false), f, l);
    }

    /** The execution itself, and the retry when the connection was lost. */
    method ExecuteQuery(q: Query, recPtr: Query, a: Answers) returns (ok: bool, aborted: bool)
      requires Tracks() && place == Executing(q.recpoint)
      modifies this`mLogon, this`place, this`choices, this`mQuery, servicer`sawKill, servicer`mIsHit, servicer`mIsArtRestart
      ensures Tracks() && place == if aborted then Aborted else if ok then Ready else Failed
      ensures aborted <==> a.executed.Lost? && old(servicer.mIsArtRestart)
      ensures ok <==> a.executed.Good? || (a.executed.Lost? && !aborted && a.Rescued(q))
      ensures mQuery == Reactivated(!aborted && a.Killed(), recPtr) + old(mQuery)
      ensures servicer.View() ==
        if !aborted && a.Killed() then Flags(true, old(servicer.mIsCrash), true, true) else old(servicer.View())
    {
      RunnerExecute(q, a);
      aborted := false;
      ok := a.executed.Good?;
      if a.executed.Lost? {
        aborted := AssertNoRestart(q);
        if !aborted {
          ok := RetryExecution4ART(q, recPtr, a);
        }
      }
    }

    /** Logging on, in either branch. */
    method GetReady(q: Query, a: Answers) returns (ok: bool)
      requires place.Ready?
      modifies this`mLogon, this`place, this`choices, this`recpoint, this`was, servicer`mIsCrash, servicer`mIsArtRestart
      ensures was == (old(servicer.View()), old(View())) && Tracks()
      ensures if ok then place == Executing(q.recpoint) else place.Failed?
      ensures servicer.mIsArtRestart == (old(servicer.mIsArtRestart) && !(p0 && ok))
      ensures servicer.mIsCrash ==> old(servicer.mIsCrash) || (p0 && old(servicer.mIsArtRestart))
    {
      was, choices := (servicer.View(), View()), [];
      ghost var f, l := servicer.View(), View();
      recpoint := q.recpoint;
      place := if servicer.mIsArtRestart then Restarted else LoggingOn(q.recpoint);
      Record(Choice(Good, q.recpoint), f, l);
      if servicer.mIsArtRestart {
        ok := AfterRestart(a);
      } else {
        ok := PlainLogon(q.recpoint, a);
      }
    }

    /** Of a kill, the first error is shown; a skipped query shows only itself; a recovery-point command shows nothing and ends a fatal state. */
    method WriteResult(q: Query, a: Answers)
      modifies this`mResult, servicer`mFatal
      ensures mSbegin ==> mResult == old(mResult) + "$" + mProcess + "> " + q.text + ";"
      ensures !mSbegin && q.recpoint ==> mResult == old(mResult)
      ensures !mSbegin && !q.recpoint ==>
        mResult == old(mResult) + if a.executed.Lost? && !a.retried && a.recPointKill then a.firstText else a.lastText
      ensures servicer.mFatal == (old(servicer.mFatal) && (mSbegin || !q.recpoint))
    {
      if mSbegin {
        mResult := mResult + "$" + mProcess + "> " + q.text + ";";
      } else if !q.recpoint {
        mResult := mResult + if a.Killed() then a.firstText else a.lastText;
      } else if servicer.mFatal {
        servicer.mFatal := false;
      }
    }

    /** Logging on and executing: everything but the text. */
    method Attempt(q: Query, recPtr: Query, a: Answers) returns (ok: bool, aborted: bool)
      requires place.Ready?
      modifies this`mLogon, this`place, this`choices, this`recpoint, this`was, this`mQuery
      modifies servicer`sawKill, servicer`mIsHit, servicer`mIsCrash, servicer`mIsArtRestart
      ensures was == (old(servicer.View()), old(View())) && Tracks()
      ensures place == if aborted then Aborted else if ok then Ready else Failed
      ensures aborted ==> !ok && !p0 && old(servicer.mIsArtRestart)
      ensures old(servicer.mIsHit) ==> servicer.mIsHit
      ensures servicer.sawKill != old(servicer.sawKill) ==> servicer.mIsHit && servicer.mIsArtRestart
      ensures servicer.mIsCrash ==> old(servicer.mIsCrash) || (p0 && old(servicer.mIsArtRestart))
      ensures mQuery == Reactivated(ok && a.Killed(), recPtr) + old(mQuery)
    {
      ok := GetReady(q, a);
      aborted := false;
      if ok {
        ok, aborted := ExecuteQuery(q, recPtr, a);
      }
    }

    /**
     `executeArtTest`. Whatever the answers: a kill sets hit and restart, P0 takes a pending restart
     back, and the assertion can fail only for another process that meets a pending restart. Text is
     added only by a query that comes through, and in full mode exactly a kill puts the
     recovery-point command in front of the queue.
     */
    method ExecuteArtTest(q: Query, recPtr: Query, a: Answers) returns (ok: bool, aborted: bool)
      requires place.Ready? && !servicer.mAtsTestKind.Normal?
      modifies this, servicer
      ensures was == (old(servicer.View()), old(View())) && Tracks()
      ensures place == if aborted then Aborted else if ok then Ready else Failed
      ensures aborted ==> !ok && !p0 && old(servicer.mIsArtRestart)
      ensures old(servicer.mIsHit) ==> servicer.mIsHit
      ensures servicer.sawKill != old(servicer.sawKill) ==> servicer.mIsHit && servicer.mIsArtRestart
      ensures servicer.mIsCrash ==> old(servicer.mIsCrash) || (p0 && old(servicer.mIsArtRestart))
      ensures mSbegin == old(mSbegin) && (!ok ==> mResult == old(mResult))
      ensures ok && mSbegin ==> mResult == old(mResult) + "$" + mProcess + "> " + q.text + ";"
      ensures ok && !mSbegin && q.recpoint ==> mResult == old(mResult)
      ensures ok && !mSbegin && !q.recpoint ==>
        mResult == old(mResult) + if a.executed.Lost? && !a.retried && a.recPointKill then a.firstText else a.lastText
      ensures servicer.mFatal == (old(servicer.mFatal) && (!ok || mSbegin || !q.recpoint))
      ensures mQuery == Reactivated(ok && a.Killed(), recPtr) + old(mQuery)
    {
      ok, aborted := Attempt(q, recPtr, a);
      if ok {
        WriteResult(q, a);
      }
    }
  }
}
