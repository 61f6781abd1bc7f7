/**
 Which cases the lines of a suite file make, and which tag each gets: by line numbers, without
 following the pending tag from one line to the next.
 */
module SuiteLines {
  import opened Basics
  import opened CaseData
  import opened SuiteLoader

  /** Line `j` is the nearest line up to `i` that carries a tag, and no line between them has used it up or dropped it. */
  ghost predicate Carries(lines: seq<Line>, j: nat, i: nat)
    requires i < |lines|
  {
    && j <= i && lines[j].tag.Some?
    && (forall k :: j < k <= i ==> lines[k].tag.None?)
    && (forall k :: j <= k < i ==> !lines[k].Item? && !lines[k].Undotted?)
  }

  /** The tag of line `i`; a tag with an empty name is none. */
  ghost predicate TagOfLine(lines: seq<Line>, i: nat, t: Option<Tag>)
    requires i < |lines|
  {
    match t
    case Some(tag) => tag.name != "" && exists j :: 0 <= j <= i && Carries(lines, j, i) && lines[j].tag == Some(tag)
    case None => forall j :: 0 <= j <= i && Carries(lines, j, i) ==> lines[j].tag.value.name == ""
  }

  /** The numbers of the lines that list a case, in order. */
  ghost predicate ItemNumbers(lines: seq<Line>, ns: seq<nat>) {
    && (forall k :: 0 <= k < |ns| ==> ns[k] < |lines| && lines[ns[k]].Item?)
    && Increasing(ns)
    && (forall i :: 0 <= i < |lines| && lines[i].Item? ==> i in ns)
  }

  /** An entry is what its line says, with the line's tag; its children are the entries of the suite it names. */
  ghost predicate IsEntry(lines: seq<Line>, i: nat, e: Entry)
    requires i < |lines|
    decreases lines, 0
  {
    && lines[i].Item? && e.name == lines[i].name && e.kind == lines[i].kind && e.comment == lines[i].comment
    && e.commented == lines[i].commented && TagOfLine(lines, i, e.tag) && AreEntries(lines[i].children, e.children)
  }

  /** The entries of a file: one for each line that lists a case, in the order of the lines. */
  ghost predicate AreEntries(lines: seq<Line>, es: seq<Entry>)
    decreases lines, 2
  {
    exists ns: seq<nat> :: ItemNumbers(lines, ns) && EntriesAt(lines, ns, es)
  }

  ghost predicate EntriesAt(lines: seq<Line>, ns: seq<nat>, es: seq<Entry>)
    decreases lines, 1
  {
    |ns| == |es| && forall k :: 0 <= k < |es| ==> ns[k] < |lines| && IsEntry(lines, ns[k], es[k])
  }

  // ---------- the pending tag ----------

  /** What is pending before line `i`. */
  ghost predicate PendingAt(lines: seq<Line>, i: nat, pending: Tag)
    requires i <= |lines|
  {
    if exists j: nat :: Waits(lines, j, i) then exists j: nat :: Waits(lines, j, i) && Named(pending) == Named(lines[j].tag.value)
    else Named(pending) == None
  }

  /** Line `j` carries the nearest tag before line `i`, still unused. */
  ghost predicate Waits(lines: seq<Line>, j: nat, i: nat)
    requires i <= |lines|
  {
    && j < i && lines[j].tag.Some?
    && (forall k :: j < k < i ==> lines[k].tag.None?)
    && (forall k :: j <= k < i ==> !lines[k].Item? && !lines[k].Undotted?)
  }

  lemma OnlyOneWaits(lines: seq<Line>, j: nat, l: nat, i: nat)
    requires i <= |lines| && Waits(lines, j, i) && Waits(lines, l, i)
    ensures j == l
  {
  }

  lemma WaitsOrNot(lines: seq<Line>, i: nat, j: nat)
    requires i < |lines|
    ensures Carries(lines, j, i) <==> if j == i then lines[i].tag.Some? else lines[i].tag.None? && Waits(lines, j, i)
  {
  }

  lemma WaitsNext(lines: seq<Line>, i: nat, j: nat)
    requires i < |lines|
    ensures Waits(lines, j, i + 1) <==> Carries(lines, j, i) && !lines[i].Item? && !lines[i].Undotted?
  {
  }

  lemma TagHere(lines: seq<Line>, i: nat, pending: Tag)
    requires i < |lines| && PendingAt(lines, i, pending)
    ensures TagOfLine(lines, i, Named(Pending(lines[i], pending)))
    ensures (exists j: nat :: Carries(lines, j, i)) ==> exists j: nat :: Carries(lines, j, i) && Named(Pending(lines[i], pending)) == Named(lines[j].tag.value)
    ensures !(exists j: nat :: Carries(lines, j, i)) ==> Named(Pending(lines[i], pending)) == None
  {
    if lines[i].tag.Some? {
      assert Carries(lines, i, i);
      forall j | 0 <= j <= i && Carries(lines, j, i) ensures j == i { WaitsOrNot(lines, i, j); }
    } else {
      forall j | 0 <= j <= i ensures Carries(lines, j, i) <==> Waits(lines, j, i) { WaitsOrNot(lines, i, j); }
      if l: nat :| Waits(lines, l, i) {
        forall j | 0 <= j <= i && Carries(lines, j, i) ensures j == l { OnlyOneWaits(lines, j, l, i); }
        assert Carries(lines, l, i);
      }
    }
  }

  lemma PendingNext(lines: seq<Line>, i: nat, pending: Tag)
    requires i < |lines| && PendingAt(lines, i, pending)
    ensures PendingAt(lines, i + 1, StillPending(lines[i], pending))
  {
    TagHere(lines, i, pending);
    forall j: nat ensures Waits(lines, j, i + 1) <==> Carries(lines, j, i) && !lines[i].Item? && !lines[i].Undotted? {
      WaitsNext(lines, i, j);
    }
  }

  // ---------- the entries ----------

  /** The numbers of the lines from `i` on that list a case. */
  ghost predicate ItemsFrom(lines: seq<Line>, i: nat, ns: seq<nat>) {
    && (forall k :: 0 <= k < |ns| ==> i <= ns[k] < |lines| && lines[ns[k]].Item?)
    && Increasing(ns)
    && (forall n :: i <= n < |lines| && lines[n].Item? ==> n in ns)
  }

  lemma AttachNext(lines: seq<Line>, i: nat, pending: Tag)
    requires i < |lines|
    ensures var rest := Attach(lines[i + 1..], StillPending(lines[i], pending));
      Attach(lines[i..], pending) == if lines[i].Item? then [EntryOf(lines[i], Named(Pending(lines[i], pending)))] + rest else rest
  {
    assert lines[i..][0] == lines[i] && lines[i..][1..] == lines[i + 1..];
  }

  lemma ItemsNext(lines: seq<Line>, i: nat, ns: seq<nat>)
    requires i < |lines| && ItemsFrom(lines, i + 1, ns)
    ensures ItemsFrom(lines, i, if lines[i].Item? then [i] + ns else ns)
  {
    if lines[i].Item? {
      var all := [i] + ns;
      forall n | i <= n < |lines| && lines[n].Item? ensures n in all {
        if n == i { assert all[0] == i; } else { assert n in ns; }
      }
    }
  }

  lemma EntriesNext(lines: seq<Line>, i: nat, e: Entry, ns: seq<nat>, es: seq<Entry>)
    requires i < |lines| && IsEntry(lines, i, e) && EntriesAt(lines, ns, es)
    ensures EntriesAt(lines, [i] + ns, [e] + es)
  {
  }

  lemma {:induction false} AttachFrom(lines: seq<Line>, i: nat, pending: Tag) returns (ns: seq<nat>)
    requires i <= |lines| && PendingAt(lines, i, pending)
    ensures ItemsFrom(lines, i, ns) && EntriesAt(lines, ns, Attach(lines[i..], pending))
    decreases lines, |lines| - i
  {
    if i == |lines| {
      ns := [];
    } else {
      PendingNext(lines, i, pending);
      ns := AttachFrom(lines, i + 1, StillPending(lines[i], pending));
      AttachNext(lines, i, pending);
      ItemsNext(lines, i, ns);
      if lines[i].Item? {
        TagHere(lines, i, pending);
        AttachAreEntries(lines[i].children);
        EntriesNext(lines, i, EntryOf(lines[i], Named(Pending(lines[i], pending))), ns,
                    Attach(lines[i + 1..], StillPending(lines[i], pending)));
        ns := [i] + ns;
      }
    }
  }

  lemma {:induction false} AttachAreEntries(lines: seq<Line>)
    ensures AreEntries(lines, Attach(lines, NO_TAG))
    decreases lines, |lines| + 1
  {
    var ns := AttachFrom(lines, 0, NO_TAG);
    assert lines[0..] == lines;
    assert ItemNumbers(lines, ns);
  }

  // ---------- there are no other entries ----------

  lemma SameTag(lines: seq<Line>, i: nat, a: Option<Tag>, b: Option<Tag>)
    requires i < |lines| && TagOfLine(lines, i, a) && TagOfLine(lines, i, b)
    ensures a == b
  {
    forall j: nat, l: nat | j <= i && l <= i && Carries(lines, j, i) && Carries(lines, l, i) ensures j == l {
    }
  }

  lemma ItemNumbersAreUnique(lines: seq<Line>, a: seq<nat>, b: seq<nat>)
    requires ItemNumbers(lines, a) && ItemNumbers(lines, b)
    ensures a == b
  {
    SameNumbers(a, b);
  }

  lemma {:induction false} EntriesAreUnique(lines: seq<Line>, a: seq<Entry>, b: seq<Entry>)
    requires AreEntries(lines, a) && AreEntries(lines, b)
    ensures a == b
    decreases lines, 1
  {
    var ns: seq<nat> :| ItemNumbers(lines, ns) && EntriesAt(lines, ns, a);
    var ms: seq<nat> :| ItemNumbers(lines, ms) && EntriesAt(lines, ms, b);
    ItemNumbersAreUnique(lines, ns, ms);
    forall k | 0 <= k < |a| ensures a[k] == b[k] {
      EntryIsUnique(lines, ns[k], a[k], b[k]);
    }
  }

  lemma {:induction false} EntryIsUnique(lines: seq<Line>, i: nat, a: Entry, b: Entry)
    requires i < |lines| && IsEntry(lines, i, a) && IsEntry(lines, i, b)
    ensures a == b
    decreases lines, 0
  {
    SameTag(lines, i, a.tag, b.tag);
    EntriesAreUnique(lines[i].children, a.children, b.children);
  }

  /** The loader's entries are those of the lines, and no others. */
  lemma AttachExactly(lines: seq<Line>, es: seq<Entry>)
    ensures AreEntries(lines, es) <==> es == Attach(lines, NO_TAG)
  {
    AttachAreEntries(lines);
    if AreEntries(lines, es) { EntriesAreUnique(lines, es, Attach(lines, NO_TAG)); }
  }

  /** So a loaded case runs on a host exactly when the lines on its path say so. */
  lemma LoadedCasesRunByLines(infos: seq<CaseInfo>, lines: seq<Line>, es: seq<Entry>, file: string, mark: Mark,
                              skip: set<string>, here: set<string>)
    requires ShowsAll(infos, Scoped(Attach(lines, NO_TAG), None, mark, file, skip)) && AreEntries(lines, es)
    ensures var paths: seq<seq<Entry>> := Paths(es, []);
      |infos| == |paths| && forall i :: 0 <= i < |infos| ==>
        && paths[i] != [] && infos[i].caseName == paths[i][|paths[i]| - 1].name
        && (RunsHere(infos[i], here) <==> ShouldRun(paths[i], skip, mark, here))
  {
    AttachExactly(lines, es);
    LoadedCasesRunByPath(infos, es, file, mark, skip, here);
  }

  /** The root is listed first, under its own name and without a platform; below it come the cases of its lines, if it is a list that can be read. */
  lemma RootListing(infos: seq<CaseInfo>, root: RootFile, mark: Mark, skip: set<string>, es: seq<Entry>)
    requires ListsRoot(infos, root, mark, skip)
    requires root.content.Some? ==> AreEntries(root.content.value, es)
    ensures root.kind.Unknown? ==> infos == []
    ensures !root.kind.Unknown? ==>
      && infos != [] && infos[0].caseName == infos[0].tsName == root.file && infos[0].caseType == root.kind
      && infos[0].casePlatformName == infos[0].caseComment == ""
      && infos[0].caseMark == (if root.file in skip then RunSkip else mark)
      && (root.kind.Sql? || root.kind.Xml? || root.content.None? ==> |infos| == 1)
      && ((root.kind.Ts? || root.kind.Tl?) && root.content.Some? ==> ShowsAll(infos[1..], Scoped(es, None, mark, root.file, skip)))
  {
    if root.content.Some? { AttachExactly(root.content.value, es); }
  }
}
