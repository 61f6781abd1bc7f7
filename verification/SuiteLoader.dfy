/**
 Loading a tree of test suites into a flat case list (`CaseManager::load`,
 src/atsclnt/caseManager.cpp).

 The loader scopes platform tags with three member variables that survive from one
 line to the next and from one file to the next.  The specification is lexical: the
 outermost tag on the path from the root decides.
 */
module SuiteLoader {
  import opened Basics
  import opened CaseData
  import opened CaseMerge

  // ---------- lexical scoping ----------

  /** A tag with an empty name counts as no tag. */
  function Named(t: Tag): Option<Tag> {
    if t.name == "" then None else Some(t)
  }

  /** The tag pending after reading a line's own tag. */
  function Pending(line: Line, pending: Tag): Tag {
    if line.tag.Some? then line.tag.value else pending
  }

  /** What stays pending for the next line. */
  function StillPending(line: Line, pending: Tag): Tag {
    match line
    case Undotted(_) => Pending(line, pending).(name := "")
    case Item(_, _, _, _, _, _) => Pending(line, pending).(name := "")
    case _ => Pending(line, pending)
  }

  const NO_TAG: Tag := Tag("", false)

  /** The entries of a file, each with the tag that applies to it. */
  function Attach(lines: seq<Line>, pending: Tag): seq<Entry>
    decreases lines
  {
    if lines == [] then [] else
      var line := lines[0];
      var rest := Attach(lines[1..], StillPending(line, pending));
      if line.Item? then
        [Entry(Named(Pending(line, pending)), line.commented, line.name, line.kind, line.comment, Attach(line.children, NO_TAG))] + rest
      else rest
  }

  function Outer(inherited: Option<Tag>, own: Option<Tag>): Option<Tag> {
    if inherited.Some? then inherited else own
  }

  function OwnMark(e: Entry, skip: set<string>, inherited: Mark): Mark {
    if e.name in skip then RunSkip else if e.commented then NotRunnable else inherited
  }

  /** The cases of a file and of the suites in it, in order. */
  function Scoped(es: seq<Entry>, inherited: Option<Tag>, mark: Mark, file: string, skip: set<string>): seq<Case>
    decreases es
  {
    if es == [] then [] else
      var e := es[0];
      var t, m := Outer(inherited, e.tag), OwnMark(e, skip, mark);
      [Case(e, t, m, file)] + Scoped(e.children, t, m, e.name, skip) + Scoped(es[1..], inherited, mark, file, skip)
  }

  // ---------- the loader ----------

  /** A file to load at depth 0; `content` is `None` if it cannot be opened. */
  datatype RootFile = RootFile(file: string, kind: Kind, content: Option<seq<Line>>)

  class CaseManager {
    var caseList: seq<CaseInfo>
    var localCaseList: seq<CaseInfo>
    var platformName: string  // mPlatformName
    var isSetPlatformInfo: int
    var findLevel: nat
    var isNeedMerge: bool

    /** The list that `load` is filling. */
    ghost function Target(): seq<CaseInfo>
      reads this
    {
      if isNeedMerge then localCaseList else caseList
    }

    ghost function OtherList(): seq<CaseInfo>
      reads this
    {
      if isNeedMerge then caseList else localCaseList
    }

    /** How the three member variables stand for the lexical context of a line at `depth`. */
    ghost predicate StandsFor(inherited: Option<Tag>, depth: nat)
      reads this
    {
      match inherited
      case Some(t) => platformName == t.name != "" && isSetPlatformInfo == FlagOf(t.except) && findLevel < depth
      case None => platformName == "" || depth <= findLevel
    }

    /** The member variables and the loop's record between two lines of a file. */
    ghost predicate BetweenLines(inherited: Option<Tag>, depth: nat, info: CaseInfo)
      reads this
    {
      StandsFor(inherited, depth) && (inherited.None? && findLevel < depth ==> info.casePlatformName == "")
    }

    /** `findLevel` moves only without an inherited tag, and then not above the current depth. */
    twostate predicate LevelKept(inherited: Option<Tag>, depth: nat)
      reads this
    {
      findLevel == old(findLevel) || (inherited.None? && depth <= findLevel)
    }

    twostate predicate Appended(added: seq<CaseInfo>)
      reads this
    {
      OtherList() == old(OtherList()) && Target() == old(Target()) + added
    }

    method PushBack(info: CaseInfo)
      modifies this`caseList, this`localCaseList
      ensures Appended([info])
    {
      if !isNeedMerge {
        caseList := caseList + [info];
      } else {
        localCaseList := localCaseList + [info];
      }
    }

    /**
     The four tests that scope the tag of a line, in the source's order.  `info` is the loop's
     record, which keeps the platform of the line before when none of the tests fires.
     */
    method ScopeTag(own: Tag, depth: nat, info: CaseInfo, ghost inherited: Option<Tag>) returns (scoped: CaseInfo)
      requires BetweenLines(inherited, depth, info)
      modifies this`platformName, this`isSetPlatformInfo, this`findLevel
      ensures scoped == info.(casePlatformName := scoped.casePlatformName, caseFlag := scoped.caseFlag)
      ensures match Outer(inherited, Named(own))
              case None => scoped.casePlatformName == ""
              case Some(t) => scoped.casePlatformName == t.name && scoped.caseFlag == FlagOf(t.except)
      ensures StandsFor(Outer(inherited, Named(own)), depth + 1)
      ensures StandsFor(inherited, depth)
      ensures findLevel == if inherited.None? && own.name != "" then depth else old(findLevel)
    {
      scoped := info;
      if own.name != "" && platformName == "" {
        scoped := scoped.(casePlatformName := own.name, caseFlag := FlagOf(own.except));
        platformName := own.name;
        isSetPlatformInfo := FlagOf(own.except);
        findLevel := depth;
      }
      if depth > findLevel && platformName != "" {
        scoped := scoped.(casePlatformName := platformName, caseFlag := isSetPlatformInfo);
      }
      if depth <= findLevel && own.name == "" {
        platformName := "";
        isSetPlatformInfo := PLAT_OFF;
        scoped := scoped.(casePlatformName := "", caseFlag := PLAT_OFF);
      }
      if depth <= findLevel && own.name != "" {
        scoped := scoped.(casePlatformName := own.name, caseFlag := FlagOf(own.except));
        platformName := own.name;
        isSetPlatformInfo := FlagOf(own.except);
        findLevel := depth;
      }
    }

    /** The line loop of `load`, and the loads of the suites listed in the file.  `added` is what it appends. */
    method Load(lines: seq<Line>, file: string, depth: nat, mark: Mark, skip: set<string>, ghost inherited: Option<Tag>)
      returns (ghost added: seq<CaseInfo>)
      requires StandsFor(inherited, depth)
      modifies this`caseList, this`localCaseList, this`platformName, this`isSetPlatformInfo, this`findLevel
      ensures StandsFor(inherited, depth)
      ensures LevelKept(inherited, depth)
      ensures Appended(added)
      ensures ShowsAll(added, Scoped(Attach(lines, NO_TAG), inherited, mark, file, skip))
      decreases lines, 0
    {
      var junk: int := *;
      var info := CaseInfo("", junk, "", "", Unknown, mark, "");
      var pending := NO_TAG;
      added := [];
      ListsNothing(lines, inherited, mark, file, skip);
      for i := 0 to |lines|
        invariant BetweenLines(inherited, depth, info) && LevelKept(inherited, depth)
        invariant Appended(added)
        invariant Lists(lines, i, pending, inherited, mark, file, skip, added)
      {
        ghost var last, more := pending, [];
        info, pending, more := LoadLine(lines[i], file, depth, mark, skip, info, pending, inherited);
        ListsNext(lines, i, last, inherited, mark, file, skip, added, more);
        AppendedTwice(old(Target()), added, more);
        added := added + more;
      }
      ListsAll(lines, pending, inherited, mark, file, skip, added);
    }

    /** One turn of the line loop. */
    method LoadLine(line: Line, file: string, depth: nat, mark: Mark, skip: set<string>, lastInfo: CaseInfo, lastPending: Tag,
                    ghost inherited: Option<Tag>)
      returns (info: CaseInfo, pending: Tag, ghost added: seq<CaseInfo>)
      requires BetweenLines(inherited, depth, lastInfo)
      modifies this`caseList, this`localCaseList, this`platformName, this`isSetPlatformInfo, this`findLevel
      ensures BetweenLines(inherited, depth, info) && LevelKept(inherited, depth)
      ensures pending == StillPending(line, lastPending)
      ensures Appended(added)
      ensures ShowsAll(added, LineCases(line, lastPending, inherited, mark, file, skip))
      decreases line, 2
    {
      info := lastInfo.(caseMark := if line.Item? && line.commented then NotRunnable else mark);
      pending := Pending(line, lastPending);
      added := [];
      if line.Item? || line.UnknownType? {
        info := ScopeTag(pending, depth, info, inherited);
      }
      if line.Item? {
        info, added := LoadEntry(line, file, depth, mark, skip, info, pending, inherited);
      }
      if line.Item? || line.Undotted? {
        pending := pending.(name := "");
      }
    }

    /** A case with its tag scoped, and then the parent's context again. */
    method LoadEntry(line: Line, file: string, depth: nat, ghost mark: Mark, skip: set<string>, lastInfo: CaseInfo,
                     ghost pending: Tag, ghost inherited: Option<Tag>)
      returns (info: CaseInfo, ghost added: seq<CaseInfo>)
      requires line.Item? && lastInfo.caseMark == if line.commented then NotRunnable else mark
      requires StandsFor(Outer(inherited, Named(pending)), depth + 1)
      requires inherited.Some? ==> findLevel < depth
      requires inherited.None? && pending.name != "" ==> findLevel == depth
      requires match Outer(inherited, Named(pending))
               case None => lastInfo.casePlatformName == ""
               case Some(t) => lastInfo.casePlatformName == t.name != "" && lastInfo.caseFlag == FlagOf(t.except)
      modifies this`caseList, this`localCaseList, this`platformName, this`isSetPlatformInfo, this`findLevel
      ensures StandsFor(inherited, depth) && info.casePlatformName == lastInfo.casePlatformName
      ensures findLevel == old(findLevel) || (inherited.None? && depth <= findLevel)
      ensures Appended(added)
      ensures ShowsAll(added, ItemCases(line, Named(pending), inherited, mark, file, skip))
      decreases line, 1
    {
      info, added := LoadItem(line, file, depth, skip, lastInfo, ItemCase(line, Named(pending), inherited, mark, file, skip));
      StandsForParent(inherited, Named(pending), depth);
    }

    lemma StandsForParent(inherited: Option<Tag>, own: Option<Tag>, depth: nat)
      requires StandsFor(Outer(inherited, own), depth + 1)
      requires inherited.Some? ==> findLevel < depth
      requires inherited.None? && own.Some? ==> findLevel == depth
      ensures StandsFor(inherited, depth)
    {
    }

    /** Lists a case, and loads it if it is a suite. */
    method LoadItem(line: Line, file: string, depth: nat, skip: set<string>, lastInfo: CaseInfo, ghost c: Case)
      returns (info: CaseInfo, ghost added: seq<CaseInfo>)
      requires line.Item? && StandsFor(c.tag, depth + 1)
      requires c.entry == EntryOf(line, c.entry.tag) && c.file == file
      requires c.mark == if line.name in skip then RunSkip else lastInfo.caseMark
      requires match c.tag
               case None => lastInfo.casePlatformName == ""
               case Some(t) => lastInfo.casePlatformName == t.name != "" && lastInfo.caseFlag == FlagOf(t.except)
      modifies this`caseList, this`localCaseList, this`platformName, this`isSetPlatformInfo, this`findLevel
      ensures StandsFor(c.tag, depth + 1)
      ensures findLevel == old(findLevel) || (c.tag.None? && depth + 1 <= findLevel)
      ensures info.casePlatformName == lastInfo.casePlatformName
      ensures Appended(added)
      ensures ShowsAll(added, [c] + Scoped(c.entry.children, c.tag, c.mark, line.name, skip))
      decreases line, 0
    {
      info := lastInfo.(caseName := line.name, caseComment := line.comment, tsName := file, caseType := line.kind,
                        caseMark := if line.name in skip then RunSkip else lastInfo.caseMark);
      PushBack(info);
      added := Load(line.children, line.name, depth + 1, info.caseMark, skip, c.tag);
      AppendedTwice(old(Target()), [info], added);
      added := [info] + added;
    }

    /** `load` at depth 0: whatever the member variables held before. */
    method LoadRoot(root: RootFile, mark: Mark, skip: set<string>) returns (ghost added: seq<CaseInfo>)
      modifies this`caseList, this`localCaseList, this`platformName, this`isSetPlatformInfo, this`findLevel
      ensures Appended(added) && ListsRoot(added, root, mark, skip)
    {
      platformName := "";
      isSetPlatformInfo := 0;
      added := [];
      if root.kind.Unknown? { return; }
      PushBack(RootInfo(root, mark, skip));
      ghost var below := LoadContent(root, mark, skip);
      AppendedTwice(old(Target()), [RootInfo(root, mark, skip)], below);
      added := [RootInfo(root, mark, skip)] + below;
      RootFirst(below, root, mark, skip);
    }

    method LoadContent(root: RootFile, mark: Mark, skip: set<string>) returns (ghost added: seq<CaseInfo>)
      requires platformName == ""
      modifies this`caseList, this`localCaseList, this`platformName, this`isSetPlatformInfo, this`findLevel
      ensures Appended(added) && ShowsAll(added, BelowRoot(root, mark, skip))
    {
      added := [];
      if root.kind.Sql? || root.kind.Xml? || root.content.None? { return; }
      added := Load(root.content.value, root.file, 0, mark, skip, None);
    }

    /** `loadcase`: the shared suite, and with `aFlag` 2 the user's suite merged into it. */
    method LoadCase(sharedCase: RootFile, myCase: RootFile, aFlag: int, skip: set<string>, userPath: string, sharedPath: string)
      requires caseList == [] && localCaseList == []
      modifies this
      ensures aFlag != 2 ==> ListsRoot(caseList, sharedCase, Runnable, skip) && localCaseList == []
      ensures aFlag == 2 ==> ListsRoot(localCaseList, myCase, Runnable, skip)
      ensures aFlag == 2 ==> exists shared ::
        ListsRoot(shared, sharedCase, Runnable, skip) && IsMergeOf(caseList, Problem(shared, localCaseList, userPath, sharedPath))
    {
      isNeedMerge := false;
      isSetPlatformInfo := 0;
      findLevel := 0;
      ghost var added := LoadRoot(sharedCase, Runnable, skip);
      assert caseList == added;
      if aFlag == 2 {
        MergeMine(myCase, skip, userPath, sharedPath);
      }
    }

    method MergeMine(myCase: RootFile, skip: set<string>, userPath: string, sharedPath: string)
      requires localCaseList == []
      modifies this
      ensures ListsRoot(localCaseList, myCase, Runnable, skip)
      ensures IsMergeOf(caseList, Problem(old(caseList), localCaseList, userPath, sharedPath))
    {
      isNeedMerge := true;
      ghost var added := LoadRoot(myCase, Runnable, skip);
      assert localCaseList == added;
      MergeLists(userPath, sharedPath);
    }

    /** `mergeCase`. */
    method MergeLists(userPath: string, sharedPath: string)
      modifies this`caseList
      ensures IsMergeOf(caseList, Problem(old(caseList), localCaseList, userPath, sharedPath))
    {
      var pb := Problem(caseList, localCaseList, userPath, sharedPath);
      if pb.WellFormed() {
        caseList := MergeCase(pb);
      }
    }
  }

  lemma AppendedTwice(list: seq<CaseInfo>, a: seq<CaseInfo>, b: seq<CaseInfo>)
    ensures list + a + b == list + (a + b)
  {
  }

  /** The list entry of a root file; its skip mark is not handed to the lines of the file. */
  function RootInfo(root: RootFile, mark: Mark, skip: set<string>): CaseInfo {
    CaseInfo(root.file, 1, "", "", root.kind, if root.file in skip then RunSkip else mark, root.file)
  }

  /** The cases below a root file. */
  ghost function BelowRoot(root: RootFile, mark: Mark, skip: set<string>): seq<Case> {
    if root.kind.Sql? || root.kind.Xml? || root.content.None? then []
    else Scoped(Attach(root.content.value, NO_TAG), None, mark, root.file, skip)
  }

  /** Everything that loading a root file lists. */
  ghost predicate ListsRoot(infos: seq<CaseInfo>, root: RootFile, mark: Mark, skip: set<string>) {
    if root.kind.Unknown? then infos == []
    else |infos| >= 1 && infos[0] == RootInfo(root, mark, skip) && ShowsAll(infos[1..], BelowRoot(root, mark, skip))
  }

  lemma RootFirst(below: seq<CaseInfo>, root: RootFile, mark: Mark, skip: set<string>)
    requires !root.kind.Unknown? && ShowsAll(below, BelowRoot(root, mark, skip))
    ensures ListsRoot([RootInfo(root, mark, skip)] + below, root, mark, skip)
  {
    assert ([RootInfo(root, mark, skip)] + below)[1..] == below;
  }

  /** The merge is defined when every local case name is at least as long as the user path cut off it. */
  ghost predicate IsMergeOf(list: seq<CaseInfo>, pb: Problem) {
    pb.WellFormed() ==> list == MergeUpTo(pb, |pb.local|).list
  }

  ghost function EntryOf(line: Line, own: Option<Tag>): Entry
    requires line.Item?
  {
    Entry(own, line.commented, line.name, line.kind, line.comment, Attach(line.children, NO_TAG))
  }

  ghost function ItemCase(line: Line, own: Option<Tag>, inherited: Option<Tag>, mark: Mark, file: string, skip: set<string>): Case
    requires line.Item?
  {
    var e := EntryOf(line, own);
    Case(e, Outer(inherited, own), OwnMark(e, skip, mark), file)
  }

  /** The cases that come from one line. */
  ghost function LineCases(line: Line, pending: Tag, inherited: Option<Tag>, mark: Mark, file: string, skip: set<string>): seq<Case> {
    if line.Item? then ItemCases(line, Named(Pending(line, pending)), inherited, mark, file, skip) else []
  }

  ghost function ItemCases(line: Line, own: Option<Tag>, inherited: Option<Tag>, mark: Mark, file: string, skip: set<string>): seq<Case>
    requires line.Item?
  {
    var c := ItemCase(line, own, inherited, mark, file, skip);
    [c] + Scoped(c.entry.children, c.tag, c.mark, line.name, skip)
  }

  lemma ShownTogether(a: seq<CaseInfo>, b: seq<CaseInfo>, c: seq<Case>, d: seq<Case>)
    requires ShowsAll(a, c) && ShowsAll(b, d)
    ensures ShowsAll(a + b, c + d)
  {
  }

  /** `done` is what the first `i` lines of a file contribute, with `pending` left over. */
  ghost predicate IsSplit(lines: seq<Line>, i: nat, pending: Tag, inherited: Option<Tag>, mark: Mark, file: string,
                          skip: set<string>, done: seq<Case>) {
    i <= |lines| &&
    Scoped(Attach(lines, NO_TAG), inherited, mark, file, skip) == done + Scoped(Attach(lines[i..], pending), inherited, mark, file, skip)
  }

  /** `added` shows what the first `i` lines of a file contribute. */
  ghost predicate Lists(lines: seq<Line>, i: nat, pending: Tag, inherited: Option<Tag>, mark: Mark, file: string,
                        skip: set<string>, added: seq<CaseInfo>) {
    exists done :: ShowsAll(added, done) && IsSplit(lines, i, pending, inherited, mark, file, skip, done)
  }

  lemma ListsNothing(lines: seq<Line>, inherited: Option<Tag>, mark: Mark, file: string, skip: set<string>)
    ensures Lists(lines, 0, NO_TAG, inherited, mark, file, skip, [])
  {
    assert ShowsAll([], []) && IsSplit(lines, 0, NO_TAG, inherited, mark, file, skip, []);
  }

  lemma ListsNext(lines: seq<Line>, i: nat, pending: Tag, inherited: Option<Tag>, mark: Mark, file: string,
                  skip: set<string>, added: seq<CaseInfo>, more: seq<CaseInfo>)
    requires i < |lines| && Lists(lines, i, pending, inherited, mark, file, skip, added)
    requires ShowsAll(more, LineCases(lines[i], pending, inherited, mark, file, skip))
    ensures Lists(lines, i + 1, StillPending(lines[i], pending), inherited, mark, file, skip, added + more)
  {
    var done :| ShowsAll(added, done) && IsSplit(lines, i, pending, inherited, mark, file, skip, done);
    var cases := LineCases(lines[i], pending, inherited, mark, file, skip);
    SplitNext(lines, i, pending, inherited, mark, file, skip, done);
    ShownTogether(added, more, done, cases);
    assert ShowsAll(added + more, done + cases);
  }

  lemma ListsAll(lines: seq<Line>, pending: Tag, inherited: Option<Tag>, mark: Mark, file: string,
                 skip: set<string>, added: seq<CaseInfo>)
    requires Lists(lines, |lines|, pending, inherited, mark, file, skip, added)
    ensures ShowsAll(added, Scoped(Attach(lines, NO_TAG), inherited, mark, file, skip))
  {
    var done :| ShowsAll(added, done) && IsSplit(lines, |lines|, pending, inherited, mark, file, skip, done);
    assert lines[|lines|..] == [] && done + [] == done;
  }

  lemma SplitNext(lines: seq<Line>, i: nat, pending: Tag, inherited: Option<Tag>, mark: Mark, file: string,
                  skip: set<string>, done: seq<Case>)
    requires i < |lines| && IsSplit(lines, i, pending, inherited, mark, file, skip, done)
    ensures IsSplit(lines, i + 1, StillPending(lines[i], pending), inherited, mark, file, skip,
                    done + LineCases(lines[i], pending, inherited, mark, file, skip))
  {
    assert lines[i..][0] == lines[i] && lines[i..][1..] == lines[i + 1..];
    ScopedCons(lines[i..], pending, inherited, mark, file, skip);
    CasesInOrder(done, LineCases(lines[i], pending, inherited, mark, file, skip),
                 Scoped(Attach(lines[i + 1..], StillPending(lines[i], pending)), inherited, mark, file, skip));
  }

  lemma CasesInOrder(a: seq<Case>, b: seq<Case>, c: seq<Case>)
    ensures a + (b + c) == a + b + c
  {
  }

  lemma ScopedCons(lines: seq<Line>, pending: Tag, inherited: Option<Tag>, mark: Mark, file: string, skip: set<string>)
    requires lines != []
    ensures Scoped(Attach(lines, pending), inherited, mark, file, skip) ==
            LineCases(lines[0], pending, inherited, mark, file, skip)
            + Scoped(Attach(lines[1..], StillPending(lines[0], pending)), inherited, mark, file, skip)
  {
  }

  // ---------- what the list means, path by path ----------

  /** All paths from the root of `es` to an entry, in list order, each behind `prefix`. */
  ghost function Paths(es: seq<Entry>, prefix: seq<Entry>): seq<seq<Entry>>
    decreases es
  {
    if es == [] then [] else
      [prefix + [es[0]]] + Paths(es[0].children, prefix + [es[0]]) + Paths(es[1..], prefix)
  }

  /** The outermost tag on a path. */
  ghost function OutermostTag(path: seq<Entry>): Option<Tag> {
    if path == [] then None else if path[0].tag.Some? then path[0].tag else OutermostTag(path[1..])
  }

  /** The mark of the innermost commented or skipped entry on a path, or else the mark at its start. */
  ghost function InnermostMark(path: seq<Entry>, skip: set<string>, start: Mark): Mark {
    if path == [] then start else OwnMark(path[|path| - 1], skip, InnermostMark(path[..|path| - 1], skip, start))
  }

  ghost predicate IsCaseOf(c: Case, path: seq<Entry>, skip: set<string>, start: Mark) {
    && path != [] && c.entry == path[|path| - 1]
    && c.tag == OutermostTag(path)
    && c.mark == InnermostMark(path, skip, start)
  }

  ghost predicate AreCasesOf(cs: seq<Case>, paths: seq<seq<Entry>>, skip: set<string>, start: Mark) {
    |cs| == |paths| && forall i :: 0 <= i < |cs| ==> IsCaseOf(cs[i], paths[i], skip, start)
  }

  lemma {:induction false} OutermostOfLonger(path: seq<Entry>, e: Entry)
    ensures OutermostTag(path + [e]) == Outer(OutermostTag(path), e.tag)
  {
    if path == [] {
      assert path + [e] == [e];
      assert [e][1..] == [];
    } else {
      assert (path + [e])[0] == path[0] && (path + [e])[1..] == path[1..] + [e];
      OutermostOfLonger(path[1..], e);
    }
  }

  lemma ExtendedPath(c: Case, prefix: seq<Entry>, skip: set<string>, start: Mark)
    requires c.tag == Outer(OutermostTag(prefix), c.entry.tag)
    requires c.mark == OwnMark(c.entry, skip, InnermostMark(prefix, skip, start))
    ensures IsCaseOf(c, prefix + [c.entry], skip, start)
  {
    OutermostOfLonger(prefix, c.entry);
    assert (prefix + [c.entry])[..|prefix|] == prefix;
  }

  lemma CasesTogether(c: Case, path: seq<Entry>, a: seq<Case>, p: seq<seq<Entry>>, b: seq<Case>, q: seq<seq<Entry>>,
                      skip: set<string>, start: Mark)
    requires IsCaseOf(c, path, skip, start) && AreCasesOf(a, p, skip, start) && AreCasesOf(b, q, skip, start)
    ensures AreCasesOf([c] + a + b, [path] + p + q, skip, start)
  {
  }

  /** Lexical scoping is the outermost tag, and the innermost mark, of the path from the root. */
  lemma {:induction false} ScopedByPath(es: seq<Entry>, prefix: seq<Entry>, file: string, skip: set<string>, start: Mark)
    ensures AreCasesOf(Scoped(es, OutermostTag(prefix), InnermostMark(prefix, skip, start), file, skip), Paths(es, prefix), skip, start)
    decreases es
  {
    if es != [] {
      var e, tag, mark := es[0], OutermostTag(prefix), InnermostMark(prefix, skip, start);
      var c := Case(e, Outer(tag, e.tag), OwnMark(e, skip, mark), file);
      ExtendedPath(c, prefix, skip, start);
      ScopedByPath(e.children, prefix + [e], e.name, skip, start);
      ScopedByPath(es[1..], prefix, file, skip, start);
      CasesTogether(c, prefix + [e], Scoped(e.children, c.tag, c.mark, e.name, skip), Paths(e.children, prefix + [e]),
                    Scoped(es[1..], tag, mark, file, skip), Paths(es[1..], prefix), skip, start);
    }
  }

  ghost predicate Blocked(e: Entry, skip: set<string>) { e.commented || e.name in skip }

  lemma {:induction false} MarkOfPath(path: seq<Entry>, skip: set<string>, start: Mark)
    ensures InnermostMark(path, skip, start) == Runnable <==> start == Runnable && forall i :: 0 <= i < |path| ==> !Blocked(path[i], skip)
  {
    if path != [] {
      MarkOfPath(path[..|path| - 1], skip, start);
      assert forall i :: 0 <= i < |path| - 1 ==> path[..|path| - 1][i] == path[i];
    }
  }

  /** Which mark: that of the innermost blocked entry, where a skip outweighs a comment, or without one the mark at the start. */
  lemma {:induction false} MarkOfPathExactly(path: seq<Entry>, skip: set<string>, start: Mark, i: nat)
    requires i <= |path| && (forall j :: i <= j < |path| ==> !Blocked(path[j], skip)) && (i > 0 ==> Blocked(path[i - 1], skip))
    ensures InnermostMark(path, skip, start) ==
      if i == 0 then start else if path[i - 1].name in skip then RunSkip else NotRunnable
  {
    if i < |path| { MarkOfPathExactly(path[..|path| - 1], skip, start, i); }
  }

  // ---------- which cases run ----------

  /** `runnable` (src/atsclnt/atsc.cpp): `here` holds the platform names that contain this host. */
  function RunsHere(info: CaseInfo, here: set<string>): bool {
    if info.caseMark.NotRunnable? || info.caseMark.RunSkip? then false
    else if |info.casePlatformName| == 0 then true
    else if info.caseFlag == PLAT_ON then info.casePlatformName !in here
    else if info.caseFlag == PLAT_OFF then info.casePlatformName in here
    else true
  }

  /** A case below the root runs exactly when no line on its path is commented out or skipped, and the outermost tag on it, if any, lets this host run. */
  ghost predicate ShouldRun(path: seq<Entry>, skip: set<string>, start: Mark, here: set<string>) {
    && start == Runnable
    && (forall i :: 0 <= i < |path| ==> !Blocked(path[i], skip))
    && match OutermostTag(path)
       case None => true
       case Some(t) => if t.except then t.name !in here else t.name in here
  }

  lemma LoadedCasesRunByPath(infos: seq<CaseInfo>, es: seq<Entry>, file: string, mark: Mark, skip: set<string>, here: set<string>)
    requires ShowsAll(infos, Scoped(es, None, mark, file, skip))
    ensures var paths: seq<seq<Entry>> := Paths(es, []);
      |infos| == |paths| && forall i :: 0 <= i < |infos| ==>
        && paths[i] != [] && infos[i].caseName == paths[i][|paths[i]| - 1].name
        && (RunsHere(infos[i], here) <==> ShouldRun(paths[i], skip, mark, here))
  {
    ScopedByPath(es, [], file, skip, mark);
    var cs: seq<Case> := Scoped(es, None, mark, file, skip);
    var paths: seq<seq<Entry>> := Paths(es, []);
    forall i | 0 <= i < |infos|
      ensures paths[i] != [] && infos[i].caseName == paths[i][|paths[i]| - 1].name
      ensures RunsHere(infos[i], here) <==> ShouldRun(paths[i], skip, mark, here)
    {
      assert Shows(infos[i], cs[i]) && IsCaseOf(cs[i], paths[i], skip, mark);
      MarkOfPath(paths[i], skip, mark);
    }
  }

  /** The root itself is different: skipping it leaves the cases below it runnable. */
  lemma RootSkipIsNotInherited(root: string, child: string)
    requires root != child
    ensures var lines := [Item(None, false, child, Sql, "", [])];
      && RootInfo(RootFile(root, Ts, Some(lines)), Runnable, {root}).caseMark == RunSkip
      && Scoped(Attach(lines, NO_TAG), None, Runnable, root, {root}) == [Case(Entry(None, false, child, Sql, "", []), None, Runnable, root)]
  {
  }
}
