/** Fairness of the sequential recovery test: the pending points are tried strictly in turn. */
module RecoveryRotation {
  import opened RecoverySchedule

  /** The pending points in the order in which they are due, the one under the cursor first. */
  function Due(s: State): seq<Point>
    requires s.cursor <= |s.pending|
  {
    s.pending[s.cursor..] + s.pending[..s.cursor]
  }

  /** A point that was hit is done with; one that was missed goes to the end. */
  function Rotate(due: seq<Point>, hit: bool): seq<Point> {
    if due == [] then [] else due[1..] + if hit then [] else [due[0]]
  }

  /** The attempts of a log are made in turn, starting from the points due. */
  predicate InTurn(due: seq<Point>, log: seq<Attempt>)
    decreases |log|
  {
    log != [] ==> due != [] && log[0].point == due[0] && InTurn(Rotate(due, log[0].hit), log[1..])
  }

  function DueAfter(due: seq<Point>, log: seq<Attempt>): seq<Point>
    decreases |log|
  {
    if log == [] then due else DueAfter(Rotate(due, log[0].hit), log[1..])
  }

  // ---------- one turn ----------

  /** `t` has made no attempt since `s`, or tried the point that was due. */
  ghost predicate Follows(s: State, t: State) {
    s.cursor <= |s.pending| && t.cursor <= |t.pending| &&
    if |t.log| == |s.log| then t.log == s.log && Due(t) == Due(s)
    else |t.log| == |s.log| + 1 && t.log[..|s.log|] == s.log
         && Due(s) != [] && t.log[|s.log|].point == Due(s)[0] && Due(t) == Rotate(Due(s), t.log[|s.log|].hit)
  }

  lemma BodyFollows(cfg: Config, s: State, a: Answer)
    requires s.cursor <= |s.pending| && s.pos < |cfg.items|
    ensures Follows(s, Body(cfg, s, a))
  {
  }

  lemma RoundIsNoAttempt(cfg: Config, t: State)
    requires t.cursor <= |t.pending|
    ensures var r := Round(cfg, t); r.cursor <= |r.pending| && r.log == t.log && Due(r) == Due(t)
  {
  }

  lemma TurnFollows(cfg: Config, s: State, a: Answer)
    requires s.cursor <= |s.pending|
    ensures Follows(s, Turn(cfg, s, a))
  {
    if s.status.Running? && s.pos < |cfg.items| {
      BodyFollows(cfg, s, a);
      RoundIsNoAttempt(cfg, Body(cfg, s, a));
    }
  }

  // ---------- whole runs ----------

  lemma {:induction false} InTurnPush(due: seq<Point>, log: seq<Attempt>, a: Attempt)
    requires InTurn(due, log) && DueAfter(due, log) != [] && a.point == DueAfter(due, log)[0]
    ensures InTurn(due, log + [a]) && DueAfter(due, log + [a]) == Rotate(DueAfter(due, log), a.hit)
    decreases |log|
  {
    var all := log + [a];
    if log == [] {
      assert all[1..] == [];
    } else {
      assert all[1..] == log[1..] + [a];
      InTurnPush(Rotate(due, log[0].hit), log[1..], a);
    }
  }

  /** All attempts of a run are made in turn, and the points due are those the log leaves. */
  lemma {:induction false} RunsAreInTurn(cfg: Config, answers: nat -> Answer, n: nat)
    ensures var s := After(cfg, answers, n);
      s.cursor <= |s.pending| && InTurn(cfg.points, s.log) && Due(s) == DueAfter(cfg.points, s.log)
  {
    if n == 0 {
      assert Due(Start(cfg)) == cfg.points;
    } else {
      RunsAreInTurn(cfg, answers, n - 1);
      TurnFollows(cfg, After(cfg, answers, n - 1), answers(n - 1));
      FollowsInTurn(cfg.points, After(cfg, answers, n - 1), After(cfg, answers, n));
    }
  }

  lemma FollowsInTurn(points: seq<Point>, s: State, t: State)
    requires Follows(s, t) && InTurn(points, s.log) && Due(s) == DueAfter(points, s.log)
    ensures InTurn(points, t.log) && Due(t) == DueAfter(points, t.log)
  {
    if |t.log| > |s.log| {
      InTurnPush(points, s.log, t.log[|s.log|]);
      assert t.log == s.log + [t.log[|s.log|]];
    }
  }

  lemma {:induction false} InTurnSuffix(due: seq<Point>, log: seq<Attempt>, a: nat)
    requires InTurn(due, log) && a <= |log|
    ensures InTurn(DueAfter(due, log[..a]), log[a..])
    decreases |log|
  {
    if a == 0 {
      assert log[..0] == [] && log[0..] == log;
    } else {
      InTurnSuffix(Rotate(due, log[0].hit), log[1..], a - 1);
      DueAfterFirst(due, log[..a]);
      CutOnceMore(log, a);
    }
  }

  lemma DueAfterFirst(due: seq<Point>, log: seq<Attempt>)
    requires log != []
    ensures DueAfter(due, log) == DueAfter(Rotate(due, log[0].hit), log[1..])
  {
  }

  lemma CutOnceMore(log: seq<Attempt>, a: nat)
    requires 0 < a <= |log|
    ensures log[..a] != [] && log[..a][0] == log[0] && log[..a][1..] == log[1..][..a - 1] && log[1..][a - 1..] == log[a..]
  {
  }

  /** The next attempts are those due, in order, however they turn out. */
  lemma {:induction false} AttemptsAreThoseDue(due: seq<Point>, log: seq<Attempt>, k: nat)
    requires InTurn(due, log) && k < |log| && k < |due|
    ensures log[k].point == due[k]
    decreases |log|
  {
    if k > 0 { AttemptsAreThoseDue(Rotate(due, log[0].hit), log[1..], k - 1); }
  }

  /**
   After a miss of a point, every other point then pending gets exactly one attempt, in the order
   of the list, before the point itself gets its next one.
   */
  lemma EveryOtherPointComesFirst(cfg: Config, answers: nat -> Answer, n: nat, a: nat, k: nat)
    requires a < |After(cfg, answers, n).log| && !After(cfg, answers, n).log[a].hit
    ensures var log := After(cfg, answers, n).log;
      var due := DueAfter(cfg.points, log[..a]);
      && due != [] && due[0] == log[a].point
      && var others := due[1..];
        a + 1 + k < |log| && k <= |others| ==> log[a + 1 + k].point == if k < |others| then others[k] else log[a].point
  {
    var log := After(cfg, answers, n).log;
    RunsAreInTurn(cfg, answers, n);
    InTurnSuffix(cfg.points, log, a);
    var due := DueAfter(cfg.points, log[..a]);
    assert log[a..][0] == log[a] && log[a..][1..] == log[a + 1..];
    if a + 1 + k < |log| && k < |due| { AttemptsAreThoseDue(Rotate(due, false), log[a + 1..], k); }
  }

  // ---------- the object ----------

  /** The variables of the loop; the list and its cursor are `gRecPtrList` and `sRecIterator`. */
  class Scheduler {
    const cfg: Config
    var gRecPtrList: seq<Point>
    var sRecIterator: nat
    var sIterator: nat
    var sHIT: nat
    var status: Status
    ghost var log: seq<Attempt>

    ghost function View(): State
      reads this
    {
      State(gRecPtrList, sRecIterator, sIterator, sHIT, status, log)
    }

    constructor (cfg: Config)
      ensures this.cfg == cfg && View() == Start(cfg)
    {
      this.cfg := cfg;
      gRecPtrList, sRecIterator, sIterator, sHIT, status, log := cfg.points, 0, 0, 0, Running, [];
    }

    /** The end of the body. */
    method EndOfBody()
      modifies this
      ensures View() == Round(cfg, old(View()))
    {
      if |cfg.points| == 0 {
        status := DividedByZero;
        return;
      }
      var sHitRatio := sHIT * 100 / |cfg.points|;
      if sHitRatio > cfg.endCondition {
        status := Finished;
        return;
      }
      if sIterator == |cfg.items| { sIterator := 0; }
      if sRecIterator == |gRecPtrList| { sRecIterator := 0; }
    }

    /** One turn of the loop; `a` is what the service would answer. */
    method OneTurn(a: Answer)
      requires status.Running? && sIterator < |cfg.items|
      modifies this
      ensures View() == Turn(cfg, old(View()), a)
    {
      var sIn := cfg.items[sIterator];
      if sIn.Suite? {
        if !sIn.runnable {
          sIterator := sIterator + 1;
          return;
        }
      } else if sIn.Sql? {
        if !sIn.runnable {
          sIterator := sIterator + 1;
          return;
        }
        if sRecIterator >= |gRecPtrList| {
          status := OverEnd;
          return;
        }
        match a {
          case Hit =>
            sHIT := sHIT + 1;
            log := log + [Attempt(gRecPtrList[sRecIterator], true)];
            gRecPtrList := gRecPtrList[..sRecIterator] + gRecPtrList[sRecIterator + 1..];
          case Miss =>
            log := log + [Attempt(gRecPtrList[sRecIterator], false)];
            sRecIterator := sRecIterator + 1;
          case Other =>
          case _ =>
            status := Finished;
            return;
        }
      }
      sIterator := sIterator + 1;
      EndOfBody();
    }
  }
}
