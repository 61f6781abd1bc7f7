/**
 The recovery test's flags (src/ats2/laborerThread.cpp, src/ats2/serviceThread.cpp): the
 laborers of a test case read and set three flags of their servicer without any lock. Each
 access is a step of its own here, and any interleaving of the laborers' steps is a run.
 */
module ArtFlags {
  import opened Basics

  /** `mIsHit`, `mIsCrash` and `mIsArtRestart`; `sawKill` records that some check found a recovery-point kill. */
  datatype Flags = Flags(hit: bool, crash: bool, restart: bool, sawKill: bool)

  /** How an action of a step turns out: `Lost` is an answer that shows the connection gone. */
  datatype Outcome = Good | Bad | Lost

  /** What the surroundings decide at a step; `recpoint` is the kind of the query a laborer takes up or puts back. */
  datatype Choice = Choice(outcome: Outcome, recpoint: bool)

  /** Where a laborer is in `executeArtTest`, `retryExecution4ART` and `doCheckServer4ART`. */
  datatype Place =
    | Ready
    | Restarted | Cleaning | LoggingAgain | ClearingRestart
    | LoggingOn(recpoint: bool)
    | Executing(recpoint: bool)
    | Asserting(recpoint: bool) | Retrying(recpoint: bool) | Checking(recpoint: bool)
    | SettingHit | SettingRestart
    | Failed | Aborted

  datatype Laborer = Laborer(place: Place, loggedOn: bool, recpoint: bool)

  const FRESH: Laborer := Laborer(Ready, false, false)
  const NO_FLAGS: Flags := Flags(false, false, false, false)

  /** `logon` succeeds at once for a laborer that has tried before. */
  predicate LogonOk(l: Laborer, c: Choice) { l.loggedOn || c.outcome.Good? }

  /** One step of a laborer; `p0` says whether it is that of process P0. */
  function Step(p0: bool, f: Flags, l: Laborer, c: Choice): (Flags, Laborer) {
    match l.place
    case Ready => (f, Laborer(if f.restart then Restarted else LoggingOn(c.recpoint), l.loggedOn, c.recpoint))
    case Restarted =>
      if LogonOk(l, c) then (f, l.(place := ClearingRestart, loggedOn := true))
      else if p0 then (f, l.(place := Cleaning, loggedOn := true))
      else (f, l.(place := LoggingAgain, loggedOn := true))
    case Cleaning => (f.(crash := true), l.(place := LoggingAgain, loggedOn := false))
    case LoggingAgain => (f, l.(place := if LogonOk(l, c) then ClearingRestart else Failed, loggedOn := true))
    case ClearingRestart => (if p0 then f.(restart := false) else f, l.(place := Executing(l.recpoint)))
    case LoggingOn(r) => (f, l.(place := if LogonOk(l, c) || r then Executing(r) else Failed, loggedOn := true))
    case Executing(r) =>
      (f, l.(place := match c.outcome case Good => Ready case Bad => Failed case Lost => Asserting(r)))
    case Asserting(r) => (f, l.(place := if f.restart then Aborted else Retrying(r)))
    case Retrying(r) => (f, l.(place := if c.outcome.Good? then Ready else Checking(r)))
    case Checking(r) =>
      if c.outcome.Good? then (f.(sawKill := true), l.(place := SettingHit))
      else (f, l.(place := if r || c.outcome.Bad? then Ready else Failed))
    case SettingHit => (f.(hit := true), l.(place := SettingRestart))
    case SettingRestart => (f.(restart := true), l.(place := Ready, loggedOn := false))
    case Failed => (f, l)
    case Aborted => (f, l)
  }

  /** `todo`: the queries each laborer has still to take up; true for a recovery-point command. */
  datatype State = State(flags: Flags, laborers: seq<Laborer>, todo: seq<seq<bool>>) {
    predicate Shaped() { |laborers| == |todo| }
  }

  /** One step of an interleaving: which laborer moves, and how it turns out. */
  datatype Move = Move(p: nat, choice: Choice)

  /** A laborer takes its next query up when it is ready; in full mode it puts one back in front after a kill. */
  function Todo(full: bool, l: Laborer, todo: seq<bool>, c: Choice): seq<bool> {
    if l.place.Ready? && todo != [] then todo[1..]
    else if l.place.SettingRestart? && full then [c.recpoint] + todo
    else todo
  }

  /** Laborer 0 is P0; a failed assertion stops every laborer, and one without queries stays ready. */
  function Moved(full: bool, s: State, m: Move): (t: State)
    requires s.Shaped()
    ensures t.Shaped() && |t.laborers| == |s.laborers|
  {
    if m.p >= |s.laborers| || Stopped(s) || (s.laborers[m.p].place.Ready? && s.todo[m.p] == []) then s
    else
      var l := s.laborers[m.p];
      var c := if l.place.Ready? then m.choice.(recpoint := s.todo[m.p][0]) else m.choice;
      var (f, l') := Step(m.p == 0, s.flags, l, c);
      State(f, s.laborers[m.p := l'], s.todo[m.p := Todo(full, l, s.todo[m.p], c)])
  }

  predicate Stopped(s: State) { exists p :: 0 <= p < |s.laborers| && s.laborers[p].place.Aborted? }

  function Start(scripts: seq<seq<bool>>): State { State(NO_FLAGS, seq(|scripts|, _ => FRESH), scripts) }

  /** The state after an interleaving of laborers with the given queries. */
  function After(full: bool, scripts: seq<seq<bool>>, moves: seq<Move>): (s: State)
    ensures s.Shaped() && |s.laborers| == |scripts|
  {
    if moves == [] then Start(scripts)
    else Moved(full, After(full, scripts, moves[..|moves| - 1]), moves[|moves| - 1])
  }

  // ---------- what every interleaving keeps ----------

  /** A laborer in the branch for a pending restart, or about to set the flag, has seen the hit. */
  predicate NeedsHit(l: Laborer) {
    match l.place
    case Restarted => true case Cleaning => true case LoggingAgain => true case ClearingRestart => true
    case SettingRestart => true
    case _ => false
  }

  ghost predicate FlagsOk(s: State) {
    && (s.flags.crash ==> s.flags.hit) && (s.flags.restart ==> s.flags.hit)
    && (s.flags.hit ==> s.flags.sawKill)
    && (forall p :: 0 <= p < |s.laborers| && NeedsHit(s.laborers[p]) ==> s.flags.hit)
    && (forall p :: 0 <= p < |s.laborers| && s.laborers[p].place.SettingHit? ==> s.flags.sawKill)
    && (s.flags.sawKill && !s.flags.hit ==> exists p :: 0 <= p < |s.laborers| && s.laborers[p].place.SettingHit?)
  }

  lemma MoveKeepsFlags(full: bool, s: State, m: Move)
    requires s.Shaped() && FlagsOk(s)
    ensures FlagsOk(Moved(full, s, m))
  {
    var t := Moved(full, s, m);
    if t != s && t.flags.sawKill && !t.flags.hit {
      if s.laborers[m.p].place.Checking? && m.choice.outcome.Good? {
        assert t.laborers[m.p].place.SettingHit?;
      } else {
        var p :| 0 <= p < |s.laborers| && s.laborers[p].place.SettingHit?;
        assert t.laborers[p].place.SettingHit?;
      }
    }
  }

  /** In every interleaving a crash or a pending restart implies a hit, and a hit is what some check saw. */
  lemma {:induction false} FlagsStayOk(full: bool, scripts: seq<seq<bool>>, moves: seq<Move>)
    ensures FlagsOk(After(full, scripts, moves))
  {
    if moves != [] {
      FlagsStayOk(full, scripts, moves[..|moves| - 1]);
      MoveKeepsFlags(full, After(full, scripts, moves[..|moves| - 1]), moves[|moves| - 1]);
    }
  }

  // ---------- verdicts ----------

  datatype TestKind = Normal | Regressive | Sequential | Full

  datatype Verdict = Pass | Fail | Fatal | Crash | Hit | Miss | Ignored

  /** `runParseTable` after `syncLaborer`; `same` says that the report is the expected one. */
  function Judge(kind: TestKind, ignore: bool, f: Flags, fatal: bool, same: bool): Verdict {
    if ignore then (if kind.Sequential? || kind.Full? then Ignored else Pass)
    else if kind.Normal? || kind.Regressive? then
      if kind.Regressive? && f.crash then Crash
      else if same then Pass else if fatal then Fatal else Fail
    else if f.crash then Crash
    else if f.hit then Hit
    else if fatal then Fatal
    else Miss
  }

  /** No laborer is in the midst of a query. */
  predicate AtRest(s: State) {
    forall p :: 0 <= p < |s.laborers| ==> s.laborers[p].place.Ready? || s.laborers[p].place.Failed?
  }

  /** In sequential and full mode a case is CRASH or HIT exactly when it is not ignored and some check saw a recovery-point kill. */
  lemma VerdictTellsKill(scripts: seq<seq<bool>>, moves: seq<Move>, kind: TestKind, ignore: bool, fatal: bool, same: bool)
    requires (kind.Sequential? || kind.Full?) && AtRest(After(kind.Full?, scripts, moves))
    ensures var f := After(kind.Full?, scripts, moves).flags; var v := Judge(kind, ignore, f, fatal, same);
      && (v.Crash? || v.Hit? <==> f.sawKill && !ignore)
      && (v.Crash? <==> f.crash && !ignore)
      && (v.Ignored? <==> ignore)
      && (v.Fatal? <==> !f.sawKill && fatal && !ignore)
      && (v.Miss? <==> !f.sawKill && !fatal && !ignore)
  {
    FlagsStayOk(kind.Full?, scripts, moves);
  }

  /** What each verdict stands for, in every mode and whatever the flags. */
  lemma VerdictExactly(kind: TestKind, ignore: bool, f: Flags, fatal: bool, same: bool)
    ensures var v, art := Judge(kind, ignore, f, fatal, same), kind.Sequential? || kind.Full?;
      && (v.Ignored? <==> ignore && art)
      && (v.Pass? <==> !art && (ignore || (same && !(kind.Regressive? && f.crash))))
      && (v.Crash? <==> !ignore && !kind.Normal? && f.crash)
      && (v.Hit? <==> !ignore && art && f.hit && !f.crash)
      && (v.Miss? <==> !ignore && art && !f.hit && !f.crash && !fatal)
      && (v.Fail? <==> !ignore && !art && !same && !fatal && !(kind.Regressive? && f.crash))
      && (v.Fatal? <==> !ignore && fatal && !(!kind.Normal? && f.crash) && if art then !f.hit else !same)
  {
  }

  // ---------- the assertion ----------

  /** Only laborer `p` has or had a query. */
  predicate Alone(s: State, p: nat) {
    s.Shaped() && p < |s.todo| && forall q :: 0 <= q < |s.todo| && q != p ==> s.todo[q] == [] && s.laborers[q] == FRESH
  }

  /** P0 has its flag taken back before it comes to the assertion, or to the place where it is set. */
  predicate TakenBack(s: State) {
    s.flags.restart ==>
      |s.laborers| > 0 && (s.laborers[0].place.Ready? || s.laborers[0].place.Restarted? || s.laborers[0].place.Cleaning?
      || s.laborers[0].place.LoggingAgain? || s.laborers[0].place.ClearingRestart? || s.laborers[0].place.Failed?)
  }

  lemma P0Moves(full: bool, s: State, m: Move)
    requires Alone(s, 0) && TakenBack(s) && !Stopped(s)
    ensures var t := Moved(full, s, m); Alone(t, 0) && TakenBack(t) && !Stopped(t)
  {
  }

  lemma {:induction false} P0AloneIsSafe(full: bool, scripts: seq<seq<bool>>, moves: seq<Move>)
    requires Alone(Start(scripts), 0)
    ensures var s := After(full, scripts, moves); Alone(s, 0) && TakenBack(s) && !Stopped(s)
  {
    if moves != [] {
      P0AloneIsSafe(full, scripts, moves[..|moves| - 1]);
      P0Moves(full, After(full, scripts, moves[..|moves| - 1]), moves[|moves| - 1]);
    }
  }

  /** The only query of all is still to come, or under way without a restart pending, or over. */
  predicate LastQuery(s: State, p: nat) {
    Alone(s, p) && var l := s.laborers[p];
    if |s.todo[p]| == 1 then l.place.Ready? && !s.flags.restart
    else s.todo[p] == [] && (l.place.Ready? || l.place.Failed? || !s.flags.restart)
  }

  lemma LastQueryMoves(s: State, p: nat, m: Move)
    requires LastQuery(s, p) && !Stopped(s) && !s.laborers[p].place.Restarted?
    ensures var t := Moved(false, s, m); LastQuery(t, p) && !Stopped(t) && !t.laborers[p].place.Restarted?
  {
  }

  lemma {:induction false} OneQueryIsSafe(scripts: seq<seq<bool>>, p: nat, moves: seq<Move>)
    requires LastQuery(Start(scripts), p)
    ensures var s := After(false, scripts, moves); LastQuery(s, p) && !Stopped(s) && !s.laborers[p].place.Restarted?
  {
    if moves != [] {
      OneQueryIsSafe(scripts, p, moves[..|moves| - 1]);
      LastQueryMoves(After(false, scripts, moves[..|moves| - 1]), p, moves[|moves| - 1]);
    }
  }

  // ---------- how it fails ----------

  /** `s` but for laborer `p`, which is at `l` with `todo` to come, and the flags. */
  function With(s: State, f: Flags, p: nat, l: Laborer, todo: seq<bool>): State
    requires s.Shaped() && p < |s.laborers|
  {
    State(f, s.laborers[p := l], s.todo[p := todo])
  }

  /** Some interleaving leads to `s`, and no assertion has failed on the way. */
  ghost predicate Reaches(full: bool, scripts: seq<seq<bool>>, s: State) {
    s.Shaped() && |s.laborers| == |scripts| && !Stopped(s) && exists moves :: After(full, scripts, moves) == s
  }

  ghost predicate CanFail(full: bool, scripts: seq<seq<bool>>, moves: seq<Move>) { Stopped(After(full, scripts, moves)) }

  lemma OneMove(full: bool, scripts: seq<seq<bool>>, s: State, m: Move) returns (moves: seq<Move>)
    requires Reaches(full, scripts, s)
    ensures After(full, scripts, moves) == Moved(full, s, m)
  {
    var before :| After(full, scripts, before) == s;
    moves := before + [m];
    assert moves[..|moves| - 1] == before;
  }

  /** A laborer in the midst of a query, with the flags and what it has still to do. */
  datatype View = View(f: Flags, l: Laborer, todo: seq<bool>)

  predicate Leads(full: bool, p: nat, v: View, outcome: Outcome, v': View) {
    && !v.l.place.Ready? && !(v.l.place.Asserting? && v.f.restart)
    && (v'.f, v'.l) == Step(p == 0, v.f, v.l, Choice(outcome, false))
    && v'.todo == Todo(full, v.l, v.todo, Choice(outcome, false))
  }

  /** Some moves of one laborer, one after the other. */
  ghost predicate IsPath(full: bool, p: nat, vs: seq<View>, outs: seq<Outcome>) {
    |vs| == |outs| + 1 && forall i {:trigger StepAt(i)} :: StepAt(i) && 0 <= i < |outs| ==> Leads(full, p, vs[i], outs[i], vs[i + 1])
  }

  lemma GoesOn(full: bool, scripts: seq<seq<bool>>, b: State, p: nat, v: View, outcome: Outcome, v': View)
    requires b.Shaped() && p < |b.laborers| && Reaches(full, scripts, With(b, v.f, p, v.l, v.todo)) && Leads(full, p, v, outcome, v')
    ensures Reaches(full, scripts, With(b, v'.f, p, v'.l, v'.todo))
  {
    var s, c := With(b, v.f, p, v.l, v.todo), Choice(outcome, false);
    assert Moved(full, s, Move(p, c)) == With(b, v'.f, p, v'.l, v'.todo);
    var moves := OneMove(full, scripts, s, Move(p, c));
  }

  lemma {:induction false} FollowsPath(full: bool, scripts: seq<seq<bool>>, b: State, p: nat, vs: seq<View>, outs: seq<Outcome>, k: nat)
    requires b.Shaped() && p < |b.laborers| && IsPath(full, p, vs, outs) && k <= |outs|
    requires Reaches(full, scripts, With(b, vs[0].f, p, vs[0].l, vs[0].todo))
    ensures Reaches(full, scripts, With(b, vs[k].f, p, vs[k].l, vs[k].todo))
  {
    if k > 0 {
      FollowsPath(full, scripts, b, p, vs, outs, k - 1);
      assert StepAt(k - 1);
      GoesOn(full, scripts, b, p, vs[k - 1], outs[k - 1], vs[k]);
    }
  }

  /** A laborer takes its next query up. */
  lemma TakesUp(full: bool, scripts: seq<seq<bool>>, s: State, p: nat)
    requires Reaches(full, scripts, s) && CanTakeUp(s, p)
    ensures var r := s.todo[p][0];
      var l := Laborer(if s.flags.restart then Restarted else LoggingOn(r), s.laborers[p].loggedOn, r);
      Reaches(full, scripts, With(s, s.flags, p, l, s.todo[p][1..]))
  {
    var moves := OneMove(full, scripts, s, Move(p, Choice(Good, false)));
    assert Moved(full, s, Move(p, Choice(Good, false))).laborers[p].place != Aborted;
  }

  predicate CanTakeUp(s: State, p: nat) {
    s.Shaped() && p < |s.laborers| && s.laborers[p].place.Ready? && s.todo[p] != []
  }

  /** The assertion fails for a laborer that comes to it while a restart is pending. */
  lemma Fails(full: bool, scripts: seq<seq<bool>>, s: State, p: nat) returns (moves: seq<Move>)
    requires Reaches(full, scripts, s) && p < |scripts| && s.laborers[p].place.Asserting? && s.flags.restart
    ensures CanFail(full, scripts, moves)
  {
    moves := OneMove(full, scripts, s, Move(p, Choice(Good, false)));
    assert After(full, scripts, moves).laborers[p].place.Aborted?;
  }

  lemma LosingPath(full: bool, p: nat, f: Flags, loggedOn: bool, r: bool, todo: seq<bool>) returns (vs: seq<View>)
    requires !f.restart
    ensures IsPath(full, p, vs, [Good, Lost])
    ensures vs[0] == View(f, Laborer(LoggingOn(r), loggedOn, r), todo) && vs[2] == View(f, Laborer(Asserting(r), true, r), todo)
  {
    vs := [View(f, Laborer(LoggingOn(r), loggedOn, r), todo), View(f, Laborer(Executing(r), true, r), todo),
           View(f, Laborer(Asserting(r), true, r), todo)];
  }

  /** A laborer executes a query and loses its connection. */
  lemma LosesConnection(full: bool, scripts: seq<seq<bool>>, s: State, p: nat) returns (t: State)
    requires Reaches(full, scripts, s) && CanTakeUp(s, p) && !s.flags.restart
    ensures Reaches(full, scripts, t)
    ensures var r := s.todo[p][0]; t == With(s, s.flags, p, Laborer(Asserting(r), true, r), s.todo[p][1..])
  {
    TakesUp(full, scripts, s, p);
    var vs := LosingPath(full, p, s.flags, s.laborers[p].loggedOn, s.todo[p][0], s.todo[p][1..]);
    FollowsPath(full, scripts, s, p, vs, [Good, Lost], 2);
    t := With(s, vs[2].f, p, vs[2].l, vs[2].todo);
  }

  lemma KillPath(full: bool, p: nat, f: Flags, l: Laborer, todo: seq<bool>) returns (vs: seq<View>)
    requires l.place.Asserting? && !f.restart
    ensures IsPath(full, p, vs, [Good, Lost, Good])
    ensures vs[0] == View(f, l, todo) && vs[3] == View(f.(sawKill := true), l.(place := SettingHit), todo)
  {
    var r := l.place.recpoint;
    vs := [View(f, l, todo), View(f, l.(place := Retrying(r)), todo), View(f, l.(place := Checking(r)), todo),
           View(f.(sawKill := true), l.(place := SettingHit), todo)];
  }

  lemma FlagsPath(full: bool, p: nat, f: Flags, l: Laborer, todo: seq<bool>) returns (vs: seq<View>)
    requires l.place.SettingHit?
    ensures IsPath(full, p, vs, [Good, Good]) && vs[0] == View(f, l, todo)
    ensures vs[2] == View(f.(hit := true, restart := true), l.(place := Ready, loggedOn := false), (if full then [false] else []) + todo)
  {
    vs := [View(f, l, todo), View(f.(hit := true), l.(place := SettingRestart), todo),
           View(f.(hit := true, restart := true), l.(place := Ready, loggedOn := false), (if full then [false] else []) + todo)];
  }

  /** After that it finds a recovery-point kill, sets both flags, and in full mode has one more query. */
  lemma MeetsKill(full: bool, scripts: seq<seq<bool>>, s: State, p: nat) returns (t: State)
    requires Reaches(full, scripts, s) && p < |scripts| && s.laborers[p].place.Asserting? && !s.flags.restart
    ensures Reaches(full, scripts, t)
    ensures t == With(s, Flags(true, s.flags.crash, true, true), p, s.laborers[p].(place := Ready, loggedOn := false),
                      (if full then [false] else []) + s.todo[p])
  {
    var vs := KillPath(full, p, s.flags, s.laborers[p], s.todo[p]);
    assert With(s, s.flags, p, s.laborers[p], s.todo[p]) == s;
    FollowsPath(full, scripts, s, p, vs, [Good, Lost, Good], 3);
    vs := FlagsPath(full, p, vs[3].f, vs[3].l, vs[3].todo);
    FollowsPath(full, scripts, s, p, vs, [Good, Good], 2);
    t := With(s, vs[2].f, p, vs[2].l, vs[2].todo);
  }

  lemma RestartPath(full: bool, p: nat, f: Flags, loggedOn: bool, r: bool, todo: seq<bool>) returns (vs: seq<View>)
    requires f.restart && p > 0
    ensures IsPath(full, p, vs, [Good, Good, Lost])
    ensures vs[0] == View(f, Laborer(Restarted, loggedOn, r), todo) && vs[3] == View(f, Laborer(Asserting(r), true, r), todo)
  {
    vs := [View(f, Laborer(Restarted, loggedOn, r), todo), View(f, Laborer(ClearingRestart, true, r), todo),
           View(f, Laborer(Executing(r), true, r), todo), View(f, Laborer(Asserting(r), true, r), todo)];
  }

  /** A laborer other than P0 leaves a pending restart as it is, and comes to the assertion with its next query. */
  lemma MeetsRestart(full: bool, scripts: seq<seq<bool>>, s: State, p: nat) returns (t: State)
    requires Reaches(full, scripts, s) && CanTakeUp(s, p) && s.flags.restart && p > 0
    ensures Reaches(full, scripts, t) && t.flags.restart && t.laborers[p].place.Asserting?
  {
    TakesUp(full, scripts, s, p);
    var vs := RestartPath(full, p, s.flags, s.laborers[p].loggedOn, s.todo[p][0], s.todo[p][1..]);
    FollowsPath(full, scripts, s, p, vs, [Good, Good, Lost], 3);
    t := With(s, vs[3].f, p, vs[3].l, vs[3].todo);
  }

  lemma Begins(full: bool, scripts: seq<seq<bool>>)
    ensures Reaches(full, scripts, Start(scripts))
  {
    assert After(full, scripts, []) == Start(scripts);
  }

  /** One laborer other than P0 fails alone if it has a second query, which full mode gives it. */
  lemma FailsAlone(full: bool, scripts: seq<seq<bool>>, p: nat) returns (moves: seq<Move>)
    requires 0 < p < |scripts| && |scripts[p]| > (if full then 0 else 1)
    ensures CanFail(full, scripts, moves)
  {
    Begins(full, scripts);
    var s := LosesConnection(full, scripts, Start(scripts), p);
    s := MeetsKill(full, scripts, s, p);
    s := MeetsRestart(full, scripts, s, p);
    moves := Fails(full, scripts, s, p);
  }

  /** Of two laborers, one comes to the assertion, and the other sets the flag before it is asked. */
  lemma TwoFail(full: bool, scripts: seq<seq<bool>>, p: nat, q: nat) returns (moves: seq<Move>)
    requires p < |scripts| && q < |scripts| && p != q && scripts[p] != [] && scripts[q] != []
    ensures CanFail(full, scripts, moves)
  {
    Begins(full, scripts);
    var s := LosesConnection(full, scripts, Start(scripts), q);
    s := LosesConnection(full, scripts, s, p);
    s := MeetsKill(full, scripts, s, p);
    moves := Fails(full, scripts, s, q);
  }

  /** Nobody but laborer `p` has queries. */
  predicate Only(scripts: seq<seq<bool>>, p: nat) {
    forall q :: 0 <= q < |scripts| && q != p ==> scripts[q] == []
  }

  /** P0 alone has queries, or there is a single query and no full mode. */
  predicate Safe(full: bool, scripts: seq<seq<bool>>) {
    Only(scripts, 0) || (!full && exists p :: 0 < p < |scripts| && |scripts[p]| == 1 && Only(scripts, p))
  }

  lemma UnsafeFails(full: bool, scripts: seq<seq<bool>>) returns (moves: seq<Move>)
    requires !Safe(full, scripts)
    ensures CanFail(full, scripts, moves)
  {
    var p :| 0 < p < |scripts| && scripts[p] != [];
    if full || |scripts[p]| > 1 {
      moves := FailsAlone(full, scripts, p);
    } else {
      assert !Only(scripts, p);
      var q :| 0 <= q < |scripts| && q != p && scripts[q] != [];
      moves := TwoFail(full, scripts, p, q);
    }
  }

  /**
   The assertion that no restart is pending holds in every interleaving exactly when P0 alone has
   queries, or when there is but one query in all and the test is not in full mode.
   */
  lemma AssertionHoldsExactly(full: bool, scripts: seq<seq<bool>>)
    ensures (forall moves :: !CanFail(full, scripts, moves)) <==> Safe(full, scripts)
  {
    if Safe(full, scripts) {
      forall moves ensures !CanFail(full, scripts, moves) { SafeHolds(full, scripts, moves); }
    } else {
      var moves := UnsafeFails(full, scripts);
      assert CanFail(full, scripts, moves);
    }
  }

  lemma SafeHolds(full: bool, scripts: seq<seq<bool>>, moves: seq<Move>)
    requires Safe(full, scripts)
    ensures !CanFail(full, scripts, moves)
  {
    if scripts == [] {
    } else if Only(scripts, 0) {
      P0AloneIsSafe(full, scripts, moves);
    } else {
      var p :| 0 < p < |scripts| && |scripts[p]| == 1 && Only(scripts, p);
      OneQueryIsSafe(scripts, p, moves);
    }
  }
}
