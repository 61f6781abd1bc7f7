/**
 The sequential recovery test (main loop of src/atsclnt/atsc.cpp): test cases are run round and
 round, each against the recovery point under a cursor, until enough points have been hit.
 */
module RecoverySchedule {

  type Point = string

  /**
   The entries of the case list. A suite or a test case is asked whether it is runnable on this
   platform; a test list or an XML file never is, even if it is commented out or skipped.
   */
  datatype Item = Suite(runnable: bool) | Sql(runnable: bool) | Listing {
    /** The turn of this entry comes to the end of the body. */
    predicate Counts() { Listing? || runnable }
  }

  /** How the service answers one test case; `Other` is every answer that only counts something. */
  datatype Answer = Hit | Miss | Other | Fatal | Unknown | Gone

  datatype Attempt = Attempt(point: Point, hit: bool)

  /** `OverEnd`: the cursor was dereferenced at the end of the list. */
  datatype Status = Running | Finished | OverEnd | DividedByZero

  datatype Config = Config(items: seq<Item>, points: seq<Point>, endCondition: nat)

  datatype State = State(pending: seq<Point>, cursor: nat, pos: nat, hits: nat, status: Status, log: seq<Attempt>)

  function Start(cfg: Config): State { State(cfg.points, 0, 0, 0, Running, []) }

  // ---------- one turn of the loop ----------

  /** A point that was hit leaves the list; after a miss the next one is tried. */
  function Answered(s: State, a: Answer): State
    requires s.cursor < |s.pending|
  {
    var x, next := s.pending[s.cursor], s.(pos := s.pos + 1);
    match a
    case Hit => next.(hits := s.hits + 1, pending := s.pending[..s.cursor] + s.pending[s.cursor + 1..],
                      log := s.log + [Attempt(x, true)])
    case Miss => next.(cursor := s.cursor + 1, log := s.log + [Attempt(x, false)])
    case Other => next
    case Fatal => s.(status := Finished)
    case Unknown => s.(status := Finished)
    case Gone => s.(status := Finished)
  }

  /** The body up to its end. */
  function Body(cfg: Config, s: State, a: Answer): State
    requires s.pos < |cfg.items|
  {
    if !cfg.items[s.pos].Counts() || !cfg.items[s.pos].Sql? then s.(pos := s.pos + 1)
    else if s.cursor >= |s.pending| then s.(status := OverEnd)
    else Answered(s, a)
  }

  /** The end of the body: the end condition, then both cursors go round. */
  function Round(cfg: Config, s: State): State {
    if |cfg.points| == 0 then s.(status := DividedByZero)
    else if s.hits * 100 / |cfg.points| > cfg.endCondition then s.(status := Finished)
    else s.(pos := if s.pos == |cfg.items| then 0 else s.pos,
            cursor := if s.cursor == |s.pending| then 0 else s.cursor)
  }

  /** One turn; a suite or test case that is not runnable is passed over without the end of the body. */
  function Turn(cfg: Config, s: State, a: Answer): State {
    if !s.status.Running? || s.pos >= |cfg.items| then s
    else
      var t := Body(cfg, s, a);
      if !t.status.Running? || !cfg.items[s.pos].Counts() then t else Round(cfg, t)
  }

  /** The state after `n` turns. */
  function After(cfg: Config, answers: nat -> Answer, n: nat): State {
    if n == 0 then Start(cfg) else Turn(cfg, After(cfg, answers, n - 1), answers(n - 1))
  }

  predicate Crashed(s: State) { s.status.OverEnd? || s.status.DividedByZero? }

  predicate CrashesAt(cfg: Config, answers: nat -> Answer, n: nat) { Crashed(After(cfg, answers, n)) }

  // ---------- conservation ----------

  function HitPoints(log: seq<Attempt>): seq<Point> {
    if log == [] then [] else
      HitPoints(log[..|log| - 1]) + if log[|log| - 1].hit then [log[|log| - 1].point] else []
  }

  ghost predicate Conserves(cfg: Config, s: State) {
    && s.hits + |s.pending| == |cfg.points| && s.hits == |HitPoints(s.log)|
    && multiset(s.pending) + multiset(HitPoints(s.log)) == multiset(cfg.points)
    && s.pos <= |cfg.items|
  }

  lemma LogHit(log: seq<Attempt>, a: Attempt)
    ensures HitPoints(log + [a]) == HitPoints(log) + if a.hit then [a.point] else []
  {
  }

  lemma EraseOne(pending: seq<Point>, i: nat, hit: seq<Point>)
    requires i < |pending|
    ensures multiset(pending[..i] + pending[i + 1..]) + multiset(hit + [pending[i]]) == multiset(pending) + multiset(hit)
  {
    assert pending == pending[..i] + [pending[i]] + pending[i + 1..];
  }

  lemma BodyConserves(cfg: Config, s: State, a: Answer)
    requires Conserves(cfg, s) && s.pos < |cfg.items|
    ensures Conserves(cfg, Body(cfg, s, a))
  {
    if s.cursor < |s.pending| {
      LogHit(s.log, Attempt(s.pending[s.cursor], a.Hit?));
      EraseOne(s.pending, s.cursor, HitPoints(s.log));
    }
  }

  lemma RoundConserves(cfg: Config, s: State)
    requires Conserves(cfg, s)
    ensures Conserves(cfg, Round(cfg, s))
  {
  }

  lemma TurnConserves(cfg: Config, s: State, a: Answer)
    requires Conserves(cfg, s)
    ensures Conserves(cfg, Turn(cfg, s, a))
  {
    if s.pos < |cfg.items| {
      BodyConserves(cfg, s, a);
      RoundConserves(cfg, Body(cfg, s, a));
    }
  }

  /** At every moment the points hit, each once, and the points still pending are together the points of the file. */
  lemma {:induction false} PointsAreConserved(cfg: Config, answers: nat -> Answer, n: nat)
    ensures Conserves(cfg, After(cfg, answers, n))
  {
    if n > 0 {
      PointsAreConserved(cfg, answers, n - 1);
      TurnConserves(cfg, After(cfg, answers, n - 1), answers(n - 1));
    }
  }

  // ---------- the cursor ----------

  predicate OnPoint(cfg: Config, s: State) {
    s.status.Running? ==> s.cursor < |s.pending|
  }

  lemma AllHit(n: nat)
    requires n > 0
    ensures n * 100 / n == 100
  {
  }

  lemma TurnStaysOnPoint(cfg: Config, s: State, a: Answer)
    requires Conserves(cfg, s) && |cfg.points| > 0 && cfg.endCondition < 100 && OnPoint(cfg, s) && !Crashed(s)
    ensures OnPoint(cfg, Turn(cfg, s, a)) && !Crashed(Turn(cfg, s, a))
  {
    AllHit(|cfg.points|);
  }

  lemma {:induction false} StaysOnPoint(cfg: Config, answers: nat -> Answer, n: nat)
    requires |cfg.points| > 0 && cfg.endCondition < 100
    ensures OnPoint(cfg, After(cfg, answers, n)) && !Crashed(After(cfg, answers, n))
  {
    if n > 0 {
      StaysOnPoint(cfg, answers, n - 1);
      PointsAreConserved(cfg, answers, n - 1);
      TurnStaysOnPoint(cfg, After(cfg, answers, n - 1), answers(n - 1));
    }
  }

  /** How many entries lie between position `pos` and entry `k`, going round. */
  function Ahead(cfg: Config, pos: nat, k: nat): int { if pos <= k then k - pos else |cfg.items| - pos + k }

  ghost predicate GoesRound(cfg: Config, k: nat) {
    k < |cfg.items| && cfg.items[k] == Sql(true) && cfg.items[|cfg.items| - 1].Counts()
  }

  /** The loop is at a test case or before one, with no point left or the cursor on one. */
  predicate Going(cfg: Config, s: State) {
    s.status.Running? && s.pos < |cfg.items| && (s.cursor < |s.pending| || s.pending == [])
  }

  /** Both cursors go round. */
  function GoneRound(cfg: Config, t: State): State {
    t.(pos := if t.pos == |cfg.items| then 0 else t.pos, cursor := if t.cursor == |t.pending| then 0 else t.cursor)
  }

  predicate Nearer(cfg: Config, k: nat, s: State, r: State) {
    |r.pending| < |s.pending| || (|r.pending| == |s.pending| && Ahead(cfg, r.pos, k) < Ahead(cfg, s.pos, k))
  }

  /** A hit brings the loop on to fewer points or nearer to the next test case. */
  lemma HitAdvances(cfg: Config, k: nat, s: State)
    requires GoesRound(cfg, k) && Going(cfg, s)
    ensures var t := Body(cfg, s, Hit);
      var r := if cfg.items[s.pos].Counts() then GoneRound(cfg, t) else t;
      t.status.OverEnd? || (Going(cfg, r) && Nearer(cfg, k, s, r))
  {
  }

  predicate NeverEnough(cfg: Config) { cfg.endCondition >= 100 || |cfg.points| == 0 }

  /** The end of the body then only takes the cursors round. */
  lemma RoundGoesOn(cfg: Config, t: State)
    requires NeverEnough(cfg) && t.hits <= |cfg.points|
    ensures Round(cfg, t).status.DividedByZero? || Round(cfg, t) == GoneRound(cfg, t)
  {
    if |cfg.points| > 0 { RatioIsAtMost100(|cfg.points|, t.hits); }
  }

  lemma HitGoesOn(cfg: Config, k: nat, s: State)
    requires GoesRound(cfg, k) && NeverEnough(cfg) && Going(cfg, s) && Conserves(cfg, s)
    ensures var t := Turn(cfg, s, Hit); Crashed(t) || (Going(cfg, t) && Nearer(cfg, k, s, t))
  {
    BodyConserves(cfg, s, Hit);
    HitAdvances(cfg, k, s);
    RoundGoesOn(cfg, Body(cfg, s, Hit));
  }

  lemma {:induction false} HittingAllCrashes(cfg: Config, k: nat, answers: nat -> Answer, n: nat) returns (m: nat)
    requires GoesRound(cfg, k) && NeverEnough(cfg) && Going(cfg, After(cfg, answers, n))
    requires forall i :: answers(i) == Hit
    ensures Crashed(After(cfg, answers, m))
    decreases |After(cfg, answers, n).pending|, Ahead(cfg, After(cfg, answers, n).pos, k)
  {
    PointsAreConserved(cfg, answers, n);
    HitGoesOn(cfg, k, After(cfg, answers, n));
    if Crashed(After(cfg, answers, n + 1)) {
      m := n + 1;
    } else {
      m := HittingAllCrashes(cfg, k, answers, n + 1);
    }
  }

  lemma RatioIsAtMost100(total: nat, hits: nat)
    requires hits <= total && total > 0
    ensures hits * 100 / total <= 100
  {
  }

  // ---------- every case list ----------

  /** The runnable test cases of a list. */
  function Cases(items: seq<Item>): nat {
    if items == [] then 0 else (if items[0] == Sql(true) then 1 else 0) + Cases(items[1..])
  }

  lemma CasesFrom(items: seq<Item>, pos: nat)
    requires pos < |items|
    ensures Cases(items[pos..]) == (if items[pos] == Sql(true) then 1 else 0) + Cases(items[pos + 1..])
  {
    assert items[pos..][1..] == items[pos + 1..];
  }

  lemma {:induction false} CaseAt(items: seq<Item>) returns (k: nat)
    requires Cases(items) > 0
    ensures k < |items| && items[k] == Sql(true)
  {
    if items[0] == Sql(true) {
      k := 0;
    } else {
      k := CaseAt(items[1..]);
      k := k + 1;
    }
  }

  /** The list is gone through at most once: its last entry is a suite or test case that is not runnable. */
  predicate OnePass(cfg: Config) { cfg.items != [] && !cfg.items[|cfg.items| - 1].Counts() }

  /** When the loop cannot crash, as a caller can tell before it starts. */
  predicate Safe(cfg: Config) {
    if |cfg.points| == 0 then forall i :: 0 <= i < |cfg.items| ==> !cfg.items[i].Counts()
    else cfg.endCondition < 100 || Cases(cfg.items) == 0 || (OnePass(cfg) && Cases(cfg.items) <= |cfg.points|)
  }

  /** Points enough for the test cases still to come. */
  predicate PointsLast(cfg: Config, s: State) {
    s.status.Running? ==>
      s.pos <= |cfg.items| && (s.cursor < |s.pending| || s.pending == [])
      && (Cases(cfg.items) == 0 || (OnePass(cfg) && Cases(cfg.items[s.pos..]) <= |s.pending|))
  }

  lemma {:induction false} NoCaseAt(items: seq<Item>, pos: nat)
    requires pos < |items| && Cases(items) == 0
    ensures items[pos] != Sql(true)
  {
    if pos > 0 { NoCaseAt(items[1..], pos - 1); }
  }

  lemma BodyKeepsPoints(cfg: Config, s: State, a: Answer)
    requires PointsLast(cfg, s) && s.status.Running? && s.pos < |cfg.items|
    ensures var t := Body(cfg, s, a);
      !Crashed(t) && PointsLast(cfg, if cfg.items[s.pos].Counts() then GoneRound(cfg, t) else t)
  {
    CasesFrom(cfg.items, s.pos);
    if Cases(cfg.items) == 0 { NoCaseAt(cfg.items, s.pos); }
  }

  lemma RoundResult(cfg: Config, t: State)
    requires |cfg.points| > 0
    ensures Round(cfg, t) == t.(status := Finished) || Round(cfg, t) == GoneRound(cfg, t)
  {
  }

  lemma TurnKeepsPoints(cfg: Config, s: State, a: Answer)
    requires |cfg.points| > 0 && PointsLast(cfg, s) && !Crashed(s)
    ensures PointsLast(cfg, Turn(cfg, s, a)) && !Crashed(Turn(cfg, s, a))
  {
    if s.status.Running? && s.pos < |cfg.items| {
      BodyKeepsPoints(cfg, s, a);
      RoundResult(cfg, Body(cfg, s, a));
    }
  }

  /** Without points, nothing but entries that do not count can be passed. */
  lemma {:induction false} WithoutPoints(cfg: Config, answers: nat -> Answer, n: nat)
    requires |cfg.points| == 0 && Safe(cfg)
    ensures After(cfg, answers, n).status.Running?
  {
    if n > 0 { WithoutPoints(cfg, answers, n - 1); }
  }

  lemma {:induction false} PointsLastLong(cfg: Config, answers: nat -> Answer, n: nat)
    requires |cfg.points| > 0 && Safe(cfg) && cfg.endCondition >= 100
    ensures PointsLast(cfg, After(cfg, answers, n)) && !Crashed(After(cfg, answers, n))
  {
    if n == 0 {
      assert cfg.items[0..] == cfg.items;
    } else {
      PointsLastLong(cfg, answers, n - 1);
      TurnKeepsPoints(cfg, After(cfg, answers, n - 1), answers(n - 1));
    }
  }

  lemma SafeNeverCrashes(cfg: Config, answers: nat -> Answer, n: nat)
    requires Safe(cfg)
    ensures !CrashesAt(cfg, answers, n)
  {
    if |cfg.points| == 0 {
      WithoutPoints(cfg, answers, n);
    } else if cfg.endCondition < 100 {
      StaysOnPoint(cfg, answers, n);
    } else {
      PointsLastLong(cfg, answers, n);
    }
  }

  /** Without points, the first entry that counts crashes. */
  lemma {:induction false} FirstEntryCrashes(cfg: Config, k: nat, answers: nat -> Answer, n: nat) returns (m: nat)
    requires |cfg.points| == 0 && k < |cfg.items| && cfg.items[k].Counts()
    requires var s := After(cfg, answers, n); s.status.Running? && s.pos <= k && s.pending == []
    ensures Crashed(After(cfg, answers, m))
    decreases k - After(cfg, answers, n).pos
  {
    if Crashed(After(cfg, answers, n + 1)) {
      m := n + 1;
    } else {
      m := FirstEntryCrashes(cfg, k, answers, n + 1);
    }
  }

  /** In one pass with more test cases than points, hitting every point crashes. */
  lemma {:induction false} OnePassCrashes(cfg: Config, answers: nat -> Answer, n: nat) returns (m: nat)
    requires OnePass(cfg) && cfg.endCondition >= 100 && |cfg.points| > 0 && forall i :: answers(i) == Hit
    requires var s := After(cfg, answers, n); Going(cfg, s) && |s.pending| < Cases(cfg.items[s.pos..])
    ensures Crashed(After(cfg, answers, m))
    decreases |cfg.items| - After(cfg, answers, n).pos
  {
    var s := After(cfg, answers, n);
    PointsAreConserved(cfg, answers, n);
    HitsAreBounded(cfg, s, Hit);
    PassGoesOn(cfg, s);
    if Crashed(After(cfg, answers, n + 1)) {
      m := n + 1;
    } else {
      m := OnePassCrashes(cfg, answers, n + 1);
    }
  }

  lemma PassAdvances(cfg: Config, s: State)
    requires OnePass(cfg) && Going(cfg, s) && |s.pending| < Cases(cfg.items[s.pos..])
    ensures var t := Body(cfg, s, Hit);
      var r := if cfg.items[s.pos].Counts() then GoneRound(cfg, t) else t;
      t.status.OverEnd? || (Going(cfg, r) && r.pos == s.pos + 1 && |r.pending| < Cases(cfg.items[r.pos..]))
  {
    CasesFrom(cfg.items, s.pos);
    assert cfg.items[|cfg.items|..] == [];
  }

  lemma HitsAreBounded(cfg: Config, s: State, a: Answer)
    requires Conserves(cfg, s) && s.pos < |cfg.items|
    ensures Body(cfg, s, a).hits <= |cfg.points|
  {
    BodyConserves(cfg, s, a);
  }

  lemma PassGoesOn(cfg: Config, s: State)
    requires OnePass(cfg) && cfg.endCondition >= 100 && |cfg.points| > 0 && Going(cfg, s)
    requires Body(cfg, s, Hit).hits <= |cfg.points| && |s.pending| < Cases(cfg.items[s.pos..])
    ensures var t := Turn(cfg, s, Hit);
      Crashed(t) || (Going(cfg, t) && t.pos == s.pos + 1 && |t.pending| < Cases(cfg.items[t.pos..]))
  {
    PassAdvances(cfg, s);
    RoundGoesOn(cfg, Body(cfg, s, Hit));
  }

  lemma UnsafeCrashes(cfg: Config) returns (answers: nat -> Answer, m: nat)
    requires !Safe(cfg)
    ensures CrashesAt(cfg, answers, m)
  {
    answers := _ => Hit;
    if |cfg.points| == 0 {
      var k :| 0 <= k < |cfg.items| && cfg.items[k].Counts();
      m := FirstEntryCrashes(cfg, k, answers, 0);
    } else if OnePass(cfg) {
      assert cfg.items[0..] == cfg.items;
      m := OnePassCrashes(cfg, answers, 0);
    } else {
      var k := CaseAt(cfg.items);
      m := HittingAllCrashes(cfg, k, answers, 0);
    }
  }

  /**
   For every case list and every list of points: no answers whatever make the loop go over the end of the list
   (or divide by zero) exactly when, without points, every entry is a suite or test case that is not runnable,
   and with points, the end condition is below 100, which it is not by default, or there is no runnable test
   case, or the list is gone through once with no more of them than points.
   */
  lemma CrashFreeExactly(cfg: Config)
    ensures (forall answers: nat -> Answer, n: nat :: !CrashesAt(cfg, answers, n)) <==> Safe(cfg)
  {
    if Safe(cfg) {
      forall answers: nat -> Answer, n: nat ensures !CrashesAt(cfg, answers, n) { SafeNeverCrashes(cfg, answers, n); }
    } else {
      var answers, m := UnsafeCrashes(cfg);
      assert CrashesAt(cfg, answers, m);
    }
  }

  // ---------- how it ends ----------

  predicate Stopping(a: Answer) { a.Fatal? || a.Unknown? || a.Gone? }

  /** The points hit when the turn comes to its end. */
  function HitsAfter(cfg: Config, s: State, a: Answer): nat
    requires s.pos < |cfg.items|
  {
    s.hits + if cfg.items[s.pos] == Sql(true) && a.Hit? then 1 else 0
  }

  /**
   With the cursor on a point, a turn ends the loop exactly when a test case gets an answer that stops it, or
   the turn comes to the end of the body and the hits are then more than the end condition's share of the points.
   */
  lemma EndsExactly(cfg: Config, s: State, a: Answer)
    requires s.status.Running? && s.pos < |cfg.items| && s.cursor < |s.pending| && |cfg.points| > 0
    ensures var t, item := Turn(cfg, s, a), cfg.items[s.pos];
      t.status.Finished? <==>
      || (item == Sql(true) && Stopping(a))
      || ((item.Listing? || item.runnable) && HitsAfter(cfg, s, a) * 100 >= (cfg.endCondition + 1) * |cfg.points|)
  {
    var h, n, e := HitsAfter(cfg, s, a) * 100, |cfg.points|, cfg.endCondition;
    QuotientAbove(h, n, e);
  }

  lemma QuotientAbove(h: nat, n: nat, e: nat)
    requires n > 0
    ensures h / n > e <==> h >= (e + 1) * n
  {
    var q, r := h / n, h % n;
    assert h == q * n + r;
    if q > e {
      assert (q - e - 1) * n >= 0;
      assert q * n == (e + 1) * n + (q - e - 1) * n;
    } else {
      assert (e - q) * n >= 0;
      assert (e + 1) * n == q * n + n + (e - q) * n;
    }
  }

  /** A turn that goes on moves one entry on, back to the first after the last one. */
  lemma GoesOnExactly(cfg: Config, s: State, a: Answer)
    requires s.status.Running? && s.pos < |cfg.items| && s.cursor < |s.pending| && |cfg.points| > 0
    ensures var t, item := Turn(cfg, s, a), cfg.items[s.pos];
      t.status.Running? ==>
        && t.hits == HitsAfter(cfg, s, a)
        && t.pos == (if s.pos + 1 < |cfg.items| || !(item.Listing? || item.runnable) then s.pos + 1 else 0)
        && (item != Sql(true) || a.Other? ==> t.pending == s.pending && t.cursor == s.cursor && t.log == s.log)
  {
  }

  /** The loop ends only by its end condition, an answer that stops it, or a last suite or test case that is not runnable. */
  lemma EndsOnlyBy(cfg: Config, s: State, a: Answer)
    requires Conserves(cfg, s) && s.status.Running? && s.pos < |cfg.items|
    ensures var t := Turn(cfg, s, a);
      (t.status.Finished? || t.pos >= |cfg.items|) && !Crashed(t) ==>
      || (|cfg.points| > 0 && t.hits * 100 / |cfg.points| > cfg.endCondition)
      || (cfg.items[s.pos] == Sql(true) && Stopping(a) && t == s.(status := Finished))
      || (s.pos == |cfg.items| - 1 && !cfg.items[s.pos].Counts())
  {
  }
}
