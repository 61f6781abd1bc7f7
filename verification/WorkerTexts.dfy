/**
 What a process reports, command by command: from the script and the replies alone, without
 following the laborer's variables from one command to the next.
 */
module WorkerTexts {
  import opened Basics
  import opened Commands
  import opened Workers
  import opened WorkerScripts
  import opened WorkerRuns

  // ---------- what a command's place in the list decides ----------

  /** The last SKIP command before number `i` is a BEGIN. */
  ghost predicate Skipped(cmds: seq<Command>, i: nat)
    requires i <= |cmds|
  {
    exists j :: 0 <= j < i && cmds[j] == Skip(true) && forall k :: j < k < i ==> !cmds[k].Skip?
  }

  /** The last restart command before number `i`, if there is one, left retrying on. */
  ghost predicate Retries(cmds: seq<Command>, i: nat)
    requires i <= |cmds|
  {
    forall j :: 0 <= j < i && cmds[j].Restart? && (forall k :: j < k < i ==> !cmds[k].Restart?) ==> cmds[j].on
  }

  ghost predicate HasQueried(cmds: seq<Command>, i: nat)
    requires i <= |cmds|
  {
    exists j :: 0 <= j < i && cmds[j].Query?
  }

  ghost predicate Repeats(cmds: seq<Command>, i: nat, r: Reply)
    requires i <= |cmds|
  {
    r.connectionLost && Retries(cmds, i)
  }

  /** A query breaks off when the first logon, the execution, or a repetition after a lost connection fails. */
  ghost predicate Breaks(cmds: seq<Command>, i: nat, r: Reply)
    requires i < |cmds|
  {
    && cmds[i].Query?
    && ((!HasQueried(cmds, i) && !r.logonOk) || !r.executeOk || (Repeats(cmds, i, r) && !(r.relogonOk && r.reexecuteOk)))
  }

  /** The text that command `i` leaves when it does not break off. */
  ghost predicate Leaves(process: string, cmds: seq<Command>, i: nat, r: Reply, t: string)
    requires i < |cmds|
  {
    match cmds[i]
    case Plain(s) => t == s
    case Restart(s, _) => t == s
    case Skip(begin) => t == if begin then "--+SKIP BEGIN; " else "--+SKIP END; "
    case Query(q, _) =>
      if !Skipped(cmds, i) then t == if Repeats(cmds, i, r) then r.reshown else r.shown
      else if q != [] && q[|q| - 1] == ';' then t == "$" + process + "> " + q
      else t == "$" + process + "> " + q + ";"
  }

  /** The text of a query that breaks off: its line number, if it has one, and the client's message. */
  ghost predicate LeavesFatal(process: string, c: Command, r: Reply, t: string) {
    c.Query? && t == (if c.loc == 0 then "" else "+ $" + process + "> (" + Decimal(c.loc) + ") " + c.text) + "\n" + r.failure
  }

  /** Commands before number `n` do not break off, and number `n` does if there is one. */
  ghost predicate BreaksFirstAt(cmds: seq<Command>, replies: nat -> Reply, n: nat) {
    && n <= |cmds|
    && (forall i :: 0 <= i < n ==> !Breaks(cmds, i, replies(i)))
    && (n < |cmds| ==> Breaks(cmds, n, replies(n)))
  }

  /** The texts of a process, one for each command up to the first that breaks off. */
  ghost predicate Tells(process: string, cmds: seq<Command>, replies: nat -> Reply, n: nat, parts: seq<string>) {
    && BreaksFirstAt(cmds, replies, n) && |parts| == (if n < |cmds| then n + 1 else n)
    && (forall i :: 0 <= i < n ==> Leaves(process, cmds, i, replies(i), parts[i]))
    && (n < |cmds| ==> LeavesFatal(process, cmds[n], replies(n), parts[n]))
  }

  function Replies(sys: System, p: nat): nat -> Reply { (k: nat) => sys.replies(p, k) }

  function Concat(parts: seq<string>): string {
    if parts == [] then "" else Concat(parts[..|parts| - 1]) + parts[|parts| - 1]
  }

  // ---------- the laborer's variables say the same ----------

  /** The variables of a laborer that comes to command `i`. */
  ghost predicate StandsAt(cmds: seq<Command>, i: nat, local: Local)
    requires i <= |cmds|
  {
    (local.skipping <==> Skipped(cmds, i)) && (local.retry <==> Retries(cmds, i)) && (local.loggedOn <==> HasQueried(cmds, i))
  }

  lemma SkippedNext(cmds: seq<Command>, i: nat)
    requires i < |cmds|
    ensures Skipped(cmds, i + 1) <==> if cmds[i].Skip? then cmds[i].begin else Skipped(cmds, i)
  {
    if !cmds[i].Skip? && Skipped(cmds, i) {
      var j :| 0 <= j < i && cmds[j] == Skip(true) && forall k :: j < k < i ==> !cmds[k].Skip?;
      assert forall k :: j < k < i + 1 ==> !cmds[k].Skip?;
    }
    if Skipped(cmds, i + 1) {
      var j :| 0 <= j < i + 1 && cmds[j] == Skip(true) && forall k :: j < k < i + 1 ==> !cmds[k].Skip?;
      assert j == i || !cmds[i].Skip?;
    }
  }

  lemma RetriesNext(cmds: seq<Command>, i: nat)
    requires i < |cmds|
    ensures Retries(cmds, i + 1) <==> if cmds[i].Restart? then cmds[i].on else Retries(cmds, i)
  {
    if !cmds[i].Restart? {
      forall j | 0 <= j < i && cmds[j].Restart?
        ensures (forall k :: j < k < i ==> !cmds[k].Restart?) <==> (forall k :: j < k < i + 1 ==> !cmds[k].Restart?)
      {
      }
    }
  }

  lemma StandsNext(process: string, cmds: seq<Command>, i: nat, r: Reply, local: Local)
    requires i < |cmds| && StandsAt(cmds, i, local)
    ensures var out := Perform(process, cmds[i], r, local);
      && (out.ok <==> !Breaks(cmds, i, r))
      && (out.ok ==> StandsAt(cmds, i + 1, out.local))
  {
    SkippedNext(cmds, i);
    RetriesNext(cmds, i);
  }

  lemma LeavesNext(process: string, cmds: seq<Command>, i: nat, r: Reply, local: Local, t: string)
    requires i < |cmds| && StandsAt(cmds, i, local)
    ensures var out := Perform(process, cmds[i], r, local);
      && (!Breaks(cmds, i, r) && Leaves(process, cmds, i, r, t) ==> out.local.result == local.result + t)
      && (Breaks(cmds, i, r) && LeavesFatal(process, cmds[i], r, t) ==> out.local.result == local.result + t)
  {
    if cmds[i].Query? {
      assert local.result + Status(process, cmds[i]) + "\n" + r.failure == local.result + (Status(process, cmds[i]) + "\n" + r.failure);
      assert "$" + process + "> " + (cmds[i].text + ";") == "$" + process + "> " + cmds[i].text + ";";
    }
  }

  lemma AtTheStart(cmds: seq<Command>)
    ensures StandsAt(cmds, 0, FRESH)
  {
  }

  lemma {:induction false} TextFrom(sys: System, p: nat, cmds: seq<Command>, n: nat, parts: seq<string>, i: nat, local: Local)
    requires p < |sys.names| && i <= n && Tells(sys.names[p], cmds, Replies(sys, p), n, parts)
    requires StandsAt(cmds, i, local) && local.result == Concat(parts[..i])
    ensures FinalText(sys, p, local, cmds, i) == Concat(parts)
    decreases n - i
  {
    if i == |cmds| {
      assert parts[..i] == parts;
    } else {
      var r := sys.replies(p, i);
      StandsNext(sys.names[p], cmds, i, r, local);
      LeavesNext(sys.names[p], cmds, i, r, local, parts[i]);
      assert parts[..i + 1][..i] == parts[..i];
      if i < n {
        TextFrom(sys, p, cmds, n, parts, i + 1, Perform(sys.names[p], cmds[i], r, local).local);
      } else {
        assert parts[..i + 1] == parts;
      }
    }
  }

  /** The text a process ends with is what its commands leave, one after the other, up to the first that breaks off. */
  lemma TextMeaning(sys: System, p: nat, cmds: seq<Command>, n: nat, parts: seq<string>)
    requires p < |sys.names| && Tells(sys.names[p], cmds, Replies(sys, p), n, parts)
    ensures FinalText(sys, p, FRESH, cmds, 0) == Concat(parts)
  {
    AtTheStart(cmds);
    TextFrom(sys, p, cmds, n, parts, 0, FRESH);
  }

  // ---------- there is such a text ----------

  lemma {:induction false} FirstBreak(cmds: seq<Command>, replies: nat -> Reply, i: nat) returns (n: nat)
    requires i <= |cmds| && forall k :: 0 <= k < i ==> !Breaks(cmds, k, replies(k))
    ensures BreaksFirstAt(cmds, replies, n)
    decreases |cmds| - i
  {
    if i == |cmds| || Breaks(cmds, i, replies(i)) {
      n := i;
    } else {
      n := FirstBreak(cmds, replies, i + 1);
    }
  }

  lemma OnePart(process: string, cmds: seq<Command>, i: nat, r: Reply) returns (t: string)
    requires i < |cmds|
    ensures Leaves(process, cmds, i, r, t)
  {
    match cmds[i]
    case Plain(s) => t := s;
    case Restart(s, _) => t := s;
    case Skip(begin) => t := if begin then "--+SKIP BEGIN; " else "--+SKIP END; ";
    case Query(q, _) =>
      if !Skipped(cmds, i) {
        t := if Repeats(cmds, i, r) then r.reshown else r.shown;
      } else {
        t := "$" + process + "> " + q;
        if !(q != [] && q[|q| - 1] == ';') { t := t + ";"; }
      }
  }

  lemma {:induction false} SomeParts(process: string, cmds: seq<Command>, replies: nat -> Reply, n: nat) returns (parts: seq<string>)
    requires n <= |cmds|
    ensures |parts| == n && forall i :: 0 <= i < n ==> Leaves(process, cmds, i, replies(i), parts[i])
  {
    parts := [];
    if n > 0 {
      parts := SomeParts(process, cmds, replies, n - 1);
      var t := OnePart(process, cmds, n - 1, replies(n - 1));
      parts := parts + [t];
    }
  }

  lemma EveryProcessTells(process: string, cmds: seq<Command>, replies: nat -> Reply) returns (n: nat, parts: seq<string>)
    ensures Tells(process, cmds, replies, n, parts)
  {
    n := FirstBreak(cmds, replies, 0);
    parts := SomeParts(process, cmds, replies, n);
    if n < |cmds| {
      var c := cmds[n];
      parts := parts + [(if c.loc == 0 then "" else "+ $" + process + "> (" + Decimal(c.loc) + ") " + c.text) + "\n" + replies(n).failure];
    }
  }

  // ---------- the commands a script has for a process ----------

  /** What one node gives process `p`; the echo of a barrier goes to P0. */
  ghost predicate FromNode(node: Node, p: nat, p0: nat, part: seq<Command>) {
    match node
    case Normal(q, commands) => part == if q == p then commands else []
    case PwaitAll => part == if p == p0 then [Plain("$P0> --+PWAIT ;")] else []
    case PwaitSeconds(seconds) => part == if p == p0 then [Plain("$P0> --+PWAIT " + seconds + " ;")] else []
    case PwaitFor(_, name) => part == if p == p0 then [Plain("$P0> --+PWAIT " + name + " ;")] else []
  }

  function Flat(parts: seq<seq<Command>>): seq<Command> {
    if parts == [] then [] else Flat(parts[..|parts| - 1]) + parts[|parts| - 1]
  }

  /** Node by node, in order. */
  ghost predicate FromNodes(nodes: seq<Node>, p: nat, p0: nat, parts: seq<seq<Command>>) {
    |parts| == |nodes| && forall i :: 0 <= i < |nodes| ==> FromNode(nodes[i], p, p0, parts[i])
  }

  lemma {:induction false} WantedIsFromNodes(nodes: seq<Node>, p: nat, p0: nat, parts: seq<seq<Command>>)
    requires FromNodes(nodes, p, p0, parts)
    ensures Wanted(nodes, p, p0) == Flat(parts)
  {
    if nodes != [] { WantedIsFromNodes(nodes[..|nodes| - 1], p, p0, parts[..|parts| - 1]); }
  }

  ghost predicate Names(nodes: seq<Node>, p: nat) { exists i :: 0 <= i < |nodes| && nodes[i].Normal? && nodes[i].p == p }

  lemma {:induction false} KnownIsNamed(nodes: seq<Node>, p: nat)
    ensures p in Known(nodes) <==> Names(nodes, p)
  {
    if nodes != [] {
      var front := nodes[..|nodes| - 1];
      KnownIsNamed(front, p);
      if Names(nodes, p) && !Names(front, p) {
        var i :| 0 <= i < |nodes| && nodes[i].Normal? && nodes[i].p == p;
        assert i == |front|;
      }
      if Names(front, p) {
        var i :| 0 <= i < |front| && front[i].Normal? && front[i].p == p;
        assert nodes[i] == front[i];
      }
    }
  }

  // ---------- which commands a run executes ----------

  /** What worker `p` has executed is what its script has up to there, and only a query that breaks off has failed. */
  ghost predicate RunsOn(sys: System, p: nat, w: Worker, cmds: seq<Command>) {
    && |w.executed| <= |cmds| && w.executed == cmds[..|w.executed|]
    && (forall i :: 0 <= i < |w.executed| ==> !Breaks(cmds, i, sys.replies(p, i)))
    && (w.failed.None? ==> StandsAt(cmds, |w.executed|, w.local))
    && (w.failed.Some? ==>
          |w.executed| < |cmds| && w.failed.value == cmds[|w.executed|] && Breaks(cmds, |w.executed|, sys.replies(p, |w.executed|)))
  }

  lemma LaborerRunsOn(sys: System, p: nat, w: Worker, w': Worker, cmds: seq<Command>)
    requires p < |sys.names| && LaborerStep(sys, p, w, w') && RunsOn(sys, p, w, cmds)
    requires w.failed.Some? ==> w.phase.Done?
    requires w.phase.Executing? ==> |w.executed| < |cmds| && w.phase.command == cmds[|w.executed|]
    ensures RunsOn(sys, p, w', cmds)
  {
    if w.phase.Executing? {
      StandsNext(sys.names[p], cmds, |w.executed|, sys.replies(p, |w.executed|), w.local);
    }
  }

  lemma NextTaken(sys: System, s: State, p: nat)
    requires Inv(sys, s) && p < |sys.names| && s.workers[p].phase.Executing?
    ensures var w, cmds := s.workers[p], Script(sys, p);
      w.failed.None? && |w.executed| < |cmds| && w.phase.command == cmds[|w.executed|]
  {
    var w := s.workers[p];
    assert LaborerOk(sys, s.pc, p, w, s.staged[p]);
    BooksGrow(sys, s.pc, |sys.ops|, p);
    var b := BooksAt(sys, s.pc, p);
    assert Taken(w) == w.executed + [w.phase.command];
    assert Taken(w) <= b.handed <= Pushed(b) <= Script(sys, p);
    assert Taken(w)[|w.executed|] == w.phase.command;
  }

  lemma ServicerRunsOn(sys: System, s: State, s': State, p: nat)
    requires Inv(sys, s) && ServicerMoves(sys, s, s') && p < |sys.names| && RunsOn(sys, p, s.workers[p], Script(sys, p))
    ensures RunsOn(sys, p, s'.workers[p], Script(sys, p))
  {
    var op, w := sys.ops[s.pc], s.workers[p];
    assert LaborerOk(sys, s.pc, p, w, s.staged[p]);
    if op.p == p {
      BooksAreOk(sys, s.pc, p);
      BooksNext(sys, s.pc, p);
      NotBroken(sys, s.pc + 1, p);
      OpStepOk(sys, op, BooksAt(sys, s.pc, p), w, s.staged[p], s'.workers[p], s'.staged[p]);
    }
  }

  lemma {:induction false} EveryWorkerRunsOn(sys: System, run: seq<State>, i: nat, p: nat)
    requires Sound(sys) && IsRun(sys, run) && i < |run| && p < |sys.names|
    ensures Shaped(sys, run[i]) && RunsOn(sys, p, run[i].workers[p], Script(sys, p))
  {
    RunInv(sys, run, i);
    if i == 0 {
      AtTheStart(Script(sys, p));
    } else {
      RunInv(sys, run, i - 1);
      EveryWorkerRunsOn(sys, run, i - 1, p);
      assert Next(sys, run[i - 1], run[i]);
      if ServicerMoves(sys, run[i - 1], run[i]) {
        ServicerRunsOn(sys, run[i - 1], run[i], p);
      } else {
        var q :| LaborerMoves(sys, run[i - 1], run[i], q);
        if q == p {
          var w := run[i - 1].workers[p];
          assert LaborerOk(sys, run[i - 1].pc, p, w, run[i - 1].staged[p]);
          if w.phase.Executing? { NextTaken(sys, run[i - 1], p); }
          LaborerRunsOn(sys, p, w, run[i].workers[p], Script(sys, p));
        }
      }
    }
  }

  // ---------- the report ----------

  const RULE: string := "+----------------------------------------------------------------------+\n"
  const RULE_AND_SPACE: string := "+----------------------------------------------------------------------+\n \n"

  /** What a whole script comes to: for each process its commands, how many of them do not break off, and its texts. */
  datatype Story = Story(commands: seq<seq<Command>>, lengths: seq<nat>, texts: seq<seq<string>>)

  ghost predicate HasStory(setup: Setup, p: nat, cmds: seq<Command>, n: nat, texts: seq<string>)
    requires p < setup.N()
  {
    && (exists parts :: FromNodes(setup.nodes, p, setup.p0, parts) && cmds == Flat(parts))
    && Tells(setup.names[p], cmds, Replies(setup.Sys(), p), n, texts)
  }

  ghost predicate IsStory(setup: Setup, y: Story) {
    && |y.commands| == |y.lengths| == |y.texts| == setup.N()
    && forall p :: 0 <= p < setup.N() ==> TellsOf(setup, y, p)
  }

  ghost predicate TellsOf(setup: Setup, y: Story, p: nat)
    requires p < setup.N() == |y.commands| == |y.lengths| == |y.texts|
  {
    HasStory(setup, p, y.commands[p], y.lengths[p], y.texts[p])
  }

  /** The texts of the first `n` processes, those that no node names without any. */
  ghost function Told(setup: Setup, y: Story, n: nat): string
    requires n <= setup.N() == |y.texts|
  {
    if n == 0 then "" else Told(setup, y, n - 1) + if Names(setup.nodes, n - 1) then Concat(y.texts[n - 1]) else ""
  }

  lemma StoryOfProcess(setup: Setup, y: Story, p: nat)
    requires setup.Valid() && IsStory(setup, y) && p < setup.N()
    ensures Wanted(setup.nodes, p, setup.p0) == y.commands[p]
    ensures Expected(setup, p) == Concat(y.texts[p])
  {
    assert TellsOf(setup, y, p);
    var parts :| FromNodes(setup.nodes, p, setup.p0, parts) && y.commands[p] == Flat(parts);
    WantedIsFromNodes(setup.nodes, p, setup.p0, parts);
    TextMeaning(setup.Sys(), p, y.commands[p], y.lengths[p], y.texts[p]);
  }

  ghost predicate SaidOf(setup: Setup, y: Story, p: nat)
    requires p < setup.N() == |y.texts|
  {
    (p in Known(setup.nodes) <==> Names(setup.nodes, p)) && Expected(setup, p) == Concat(y.texts[p])
  }

  lemma {:induction false} ToldIsExpected(setup: Setup, y: Story, n: nat)
    requires |y.texts| == setup.N() >= n && forall p :: 0 <= p < n ==> SaidOf(setup, y, p)
    ensures ExpectedTexts(setup, n) == Told(setup, y, n)
  {
    if n > 0 {
      ToldIsExpected(setup, y, n - 1);
      assert SaidOf(setup, y, n - 1);
    }
  }

  /** The commands that do not break off are executed, and the one that does has failed. */
  ghost predicate RanAsTold(y: Story, p: nat, w: Worker)
    requires p < |y.commands| == |y.lengths|
  {
    var n, cmds := y.lengths[p], y.commands[p];
    n <= |cmds| && w.executed == cmds[..n] && w.failed == if n < |cmds| then Some(cmds[n]) else None
  }

  /**
   Under any schedule the report of a script is its story: the texts of its processes in order, each what its own
   commands leave up to the first that breaks off.
   */
  lemma ReportMeaning(setup: Setup, run: seq<State>, y: Story)
    requires setup.Valid() && Complete(setup, run) && IsStory(setup, y)
    ensures Report(run[|run| - 1]) ==
      " \n" + RULE + "--+SECTOR 0; BY ATC\n" + RULE_AND_SPACE + "$P0> --+PROCESS P0;\n" + Told(setup, y, setup.N()) + "\n"
  {
    ReportAsExpected(setup, run);
    forall p | 0 <= p < setup.N() ensures SaidOf(setup, y, p) {
      StoryOfProcess(setup, y, p);
      KnownIsNamed(setup.nodes, p);
    }
    ToldIsExpected(setup, y, setup.N());
  }

  lemma RunMeaning(setup: Setup, run: seq<State>, y: Story, p: nat)
    requires setup.Valid() && Complete(setup, run) && IsStory(setup, y) && p < setup.N() && Names(setup.nodes, p)
    ensures RanAsTold(y, p, run[|run| - 1].workers[p])
  {
    var w, n, cmds := run[|run| - 1].workers[p], y.lengths[p], y.commands[p];
    ScriptsAreSound(setup);
    StoryOfProcess(setup, y, p);
    KnownIsNamed(setup.nodes, p);
    CompleteRunsExecuteAll(setup, run, p);
    EveryWorkerRunsOn(setup.Sys(), run, |run| - 1, p);
    assert TellsOf(setup, y, p);
    if w.failed.Some? {
      SameBreak(setup.Sys(), p, cmds, n, |w.executed|);
    } else {
      assert n == |cmds|;
    }
  }

  /** There is only one first break. */
  lemma SameBreak(sys: System, p: nat, cmds: seq<Command>, n: nat, m: nat)
    requires BreaksFirstAt(cmds, Replies(sys, p), n) && m < |cmds|
    requires (forall i :: 0 <= i < m ==> !Breaks(cmds, i, sys.replies(p, i))) && Breaks(cmds, m, sys.replies(p, m))
    ensures n == m
  {
    assert Replies(sys, p)(m) == sys.replies(p, m);
  }

  /** Every script has its story. */
  lemma StoryExists(setup: Setup) returns (y: Story)
    requires setup.Valid()
    ensures IsStory(setup, y)
  {
    y := StoriesBelow(setup, setup.N());
    forall p | 0 <= p < setup.N() ensures TellsOf(setup, y, p) {
      assert HasStory(setup, p, y.commands[p], y.lengths[p], y.texts[p]);
    }
  }

  lemma OneStory(setup: Setup, p: nat) returns (cmds: seq<Command>, n: nat, texts: seq<string>)
    requires p < setup.N()
    ensures HasStory(setup, p, cmds, n, texts)
  {
    var parts := SomeNodes(setup.nodes, p, setup.p0);
    cmds := Flat(parts);
    n, texts := EveryProcessTells(setup.names[p], cmds, Replies(setup.Sys(), p));
  }

  lemma {:induction false} StoriesBelow(setup: Setup, n: nat) returns (y: Story)
    requires n <= setup.N()
    ensures |y.commands| == |y.lengths| == |y.texts| == n
    ensures forall p :: 0 <= p < n ==> HasStory(setup, p, y.commands[p], y.lengths[p], y.texts[p])
  {
    if n == 0 {
      y := Story([], [], []);
    } else {
      y := StoriesBelow(setup, n - 1);
      var cmds, k, texts := OneStory(setup, n - 1);
      y := Story(y.commands + [cmds], y.lengths + [k], y.texts + [texts]);
    }
  }

  lemma {:induction false} SomeNodes(nodes: seq<Node>, p: nat, p0: nat) returns (parts: seq<seq<Command>>)
    ensures FromNodes(nodes, p, p0, parts)
  {
    parts := [];
    if nodes != [] {
      parts := SomeNodes(nodes[..|nodes| - 1], p, p0);
      parts := parts + [match nodes[|nodes| - 1]
                        case Normal(q, commands) => if q == p then commands else []
                        case PwaitAll => if p == p0 then [Plain("$P0> --+PWAIT ;")] else []
                        case PwaitSeconds(seconds) => if p == p0 then [Plain("$P0> --+PWAIT " + seconds + " ;")] else []
                        case PwaitFor(_, name) => if p == p0 then [Plain("$P0> --+PWAIT " + name + " ;")] else []];
    }
  }
}
