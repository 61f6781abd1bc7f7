/**
 Overlaying a user's own cases on the shared case list (`CaseManager::mergeCase`,
 src/atsclnt/caseManager.cpp).
 */
module CaseMerge {
  import opened Basics
  import opened CaseData

  /** The shared case a local case stands for: the user path at its front replaced by the shared path. */
  function SharedName(local: CaseInfo, userPath: string, sharedPath: string): string
    requires |userPath| <= |local.caseName|
  {
    sharedPath + local.caseName[|userPath|..]
  }

  /** A shared entry taken over by a local case; platform and suite name stay those of the shared entry. */
  function Overridden(shared: CaseInfo, local: CaseInfo): CaseInfo {
    shared.(caseName := local.caseName, caseType := local.caseType, caseComment := local.caseComment,
            caseFlag := local.caseFlag, caseMark := local.caseMark)
  }

  /** A case in the user's directory stands for the one at the same place in the shared directory. */
  lemma SharedNameMeans(local: CaseInfo, userPath: string, rest: string, sharedPath: string)
    requires local.caseName == userPath + rest
    ensures SharedName(local, userPath, sharedPath) == sharedPath + rest
  {
  }

  /** An override takes everything from the local case but the platform and the suite name. */
  lemma OverriddenMeans(shared: CaseInfo, local: CaseInfo)
    ensures var r := Overridden(shared, local);
      && r.casePlatformName == shared.casePlatformName && r.tsName == shared.tsName
      && r.(casePlatformName := local.casePlatformName, tsName := local.tsName) == local
  {
  }

  // ---------- what the merged list is made of ----------

  /** Where an entry of the merged list comes from. */
  datatype Origin = Kept(slot: nat) | Override(slot: nat, local: nat) | Insert(local: nat) {
    predicate Holds(m: nat) { !Kept? && local == m }
  }

  /** The shared entries, in the order in which they appear. */
  ghost function Slots(os: seq<Origin>): seq<nat> {
    if os == [] then [] else (if os[0].Insert? then [] else [os[0].slot]) + Slots(os[1..])
  }

  /** How many entries hold local case `m`. */
  ghost function Times(os: seq<Origin>, m: nat): nat {
    if os == [] then 0 else (if os[0].Holds(m) then 1 else 0) + Times(os[1..], m)
  }

  /** Each of the first `k` local cases appears once, and no other. */
  ghost predicate OnceEach(os: seq<Origin>, k: nat) {
    forall m: nat :: Times(os, m) == if m < k then 1 else 0
  }

  ghost function UpTo(n: nat): (s: seq<nat>)
    ensures |s| == n && forall i :: 0 <= i < n ==> s[i] == i
  {
    seq(n, i requires 0 <= i < n => i)
  }

  datatype Problem = Problem(shared: seq<CaseInfo>, local: seq<CaseInfo>, userPath: string, sharedPath: string) {

    predicate WellFormed() {
      forall m :: 0 <= m < |local| ==> |userPath| <= |local[m].caseName|
    }

    function Wanted(m: nat): string
      requires WellFormed() && m < |local|
    {
      SharedName(local[m], userPath, sharedPath)
    }

    /** None of the first `k` local cases stands for a name that an earlier local case brought in. */
    ghost predicate NoClash(k: nat)
      requires WellFormed() && k <= |local|
    {
      forall j, m :: 0 <= j < m < k ==> Wanted(m) != local[j].caseName
    }

    ghost predicate InRange(o: Origin, k: nat) {
      && (o.Insert? || o.slot < |shared|)
      && (o.Kept? || o.local < k <= |local|)
    }

    function Shown(o: Origin): CaseInfo
      requires (o.Insert? || o.slot < |shared|) && (o.Kept? || o.local < |local|)
    {
      match o
      case Kept(i) => shared[i]
      case Override(i, m) => Overridden(shared[i], local[m])
      case Insert(m) => local[m]
    }

    /** `list` shows the entries of `os`. */
    ghost predicate Renders(os: seq<Origin>, k: nat, list: seq<CaseInfo>) {
      |os| == |list| && forall p :: 0 <= p < |os| ==> InRange(os[p], k) && list[p] == Shown(os[p])
    }

    /** Local case `m` stands for the shared entry behind `e`. */
    ghost predicate StandsFor(m: nat, e: Origin)
      requires WellFormed()
    {
      m < |local| && !e.Insert? && e.slot < |shared| && shared[e.slot].caseName == Wanted(m)
    }

    /** `o`'s local case did not pass over a free shared entry, nor one that was taken later. */
    ghost predicate Settled(o: Origin, e: Origin, earlier: bool)
      requires WellFormed()
    {
      !o.Kept? && StandsFor(o.local, e) ==>
        if e.Kept? then o.Override? && !earlier else o.Override? && earlier ==> e.local < o.local
    }

    /** A local case replaces the first shared entry it stands for that is still free, if there is one. */
    ghost predicate Matched(os: seq<Origin>)
      requires WellFormed()
    {
      && (forall p :: 0 <= p < |os| && os[p].Override? ==> StandsFor(os[p].local, os[p]))
      && (forall p, q :: 0 <= p < |os| && 0 <= q < |os| ==> Settled(os[p], os[q], q < p))
    }

    /** An inserted case stands directly behind the local case before it; the first of all, at the end of the shared entries. */
    ghost predicate Placed(os: seq<Origin>) {
      && (forall p :: 0 <= p < |os| && os[p].Insert? && os[p].local > 0 ==> p > 0 && os[p - 1].Holds(os[p].local - 1))
      && (forall p, q :: 0 <= p < q < |os| && os[p] == Insert(0) ==> os[q].Insert?)
    }

    /** The overlay of the first `k` local cases. */
    ghost predicate IsOverlay(os: seq<Origin>, k: nat)
      requires WellFormed() && k <= |local|
    {
      && Slots(os) == UpTo(|shared|)
      && OnceEach(os, k)
      && Matched(os)
      && Placed(os)
    }
  }

  // ---------- list edits ----------

  lemma {:induction false} SlotsConcat(a: seq<Origin>, b: seq<Origin>)
    ensures Slots(a + b) == Slots(a) + Slots(b)
  {
    if a == [] {
      assert a + b == b;
    } else {
      assert (a + b)[0] == a[0] && (a + b)[1..] == a[1..] + b;
      SlotsConcat(a[1..], b);
    }
  }

  lemma {:induction false} TimesConcat(a: seq<Origin>, b: seq<Origin>, m: nat)
    ensures Times(a + b, m) == Times(a, m) + Times(b, m)
  {
    if a == [] {
      assert a + b == b;
    } else {
      assert (a + b)[0] == a[0] && (a + b)[1..] == a[1..] + b;
      TimesConcat(a[1..], b, m);
    }
  }

  function Spliced<T>(s: seq<T>, at: nat, x: T): (r: seq<T>)
    requires at <= |s|
    ensures |r| == |s| + 1
  {
    s[..at] + [x] + s[at..]
  }

  lemma SplicedAt<T>(s: seq<T>, at: nat, x: T, r: seq<T>)
    requires at <= |s| && r == Spliced(s, at, x)
    ensures forall p :: 0 <= p < |r| ==> r[p] == if p < at then s[p] else if p == at then x else s[p - 1]
  {
  }

  lemma SlotsOfThree(a: seq<Origin>, o: Origin, b: seq<Origin>)
    ensures Slots(a + [o] + b) == Slots(a) + (if o.Insert? then [] else [o.slot]) + Slots(b)
  {
    SlotsConcat(a + [o], b);
    SlotsConcat(a, [o]);
    assert Slots([o]) == (if o.Insert? then [] else [o.slot]) + Slots([]);
  }

  lemma TimesOfThree(a: seq<Origin>, o: Origin, b: seq<Origin>, m: nat)
    ensures Times(a + [o] + b, m) == Times(a, m) + (if o.Holds(m) then 1 else 0) + Times(b, m)
  {
    TimesConcat(a + [o], b, m);
    TimesConcat(a, [o], m);
    assert Times([o], m) == (if o.Holds(m) then 1 else 0) + Times([], m);
  }

  lemma SplicedSlots(os: seq<Origin>, at: nat, m: nat)
    requires at <= |os|
    ensures Slots(Spliced(os, at, Insert(m))) == Slots(os)
  {
    var a, b := os[..at], os[at..];
    SlotsOfThree(a, Insert(m), b);
    assert Slots(a) + [] == Slots(a);
    SlotsConcat(a, b);
    assert os == a + b;
  }

  lemma SplicedOnce(os: seq<Origin>, at: nat, k: nat)
    requires at <= |os| && OnceEach(os, k)
    ensures OnceEach(Spliced(os, at, Insert(k)), k + 1)
  {
    forall m: nat
      ensures Times(Spliced(os, at, Insert(k)), m) == if m < k + 1 then 1 else 0
    {
      var a, b := os[..at], os[at..];
      TimesOfThree(a, Insert(k), b, m);
      TimesConcat(a, b, m);
      assert a + b == os;
    }
  }

  lemma ReplacedSlots(os: seq<Origin>, at: nat, m: nat)
    requires at < |os| && os[at].Kept?
    ensures Slots(os[at := Override(os[at].slot, m)]) == Slots(os)
  {
    var a, o, b := os[..at], Override(os[at].slot, m), os[at + 1..];
    SlotsOfThree(a, os[at], b);
    SlotsOfThree(a, o, b);
    assert a + [os[at]] + b == os && a + [o] + b == os[at := o];
  }

  lemma ReplacedOnce(os: seq<Origin>, at: nat, k: nat)
    requires at < |os| && os[at].Kept? && OnceEach(os, k)
    ensures OnceEach(os[at := Override(os[at].slot, k)], k + 1)
  {
    var os' := os[at := Override(os[at].slot, k)];
    forall m: nat
      ensures Times(os', m) == if m < k + 1 then 1 else 0
    {
      var a, o, b := os[..at], Override(os[at].slot, k), os[at + 1..];
      TimesOfThree(a, os[at], b, m);
      TimesOfThree(a, o, b, m);
      assert a + [os[at]] + b == os && a + [o] + b == os';
    }
  }

  ghost function AllKept(n: nat): (os: seq<Origin>)
    ensures |os| == n && forall i :: 0 <= i < n ==> os[i] == Kept(i)
  {
    seq(n, i requires 0 <= i < n => Kept(i))
  }

  lemma {:induction false} AllKeptParts(n: nat)
    ensures Slots(AllKept(n)) == UpTo(n) && OnceEach(AllKept(n), 0)
  {
    if n > 0 {
      AllKeptParts(n - 1);
      assert AllKept(n) == AllKept(n - 1) + [Kept(n - 1)] + [];
      SlotsOfThree(AllKept(n - 1), Kept(n - 1), []);
      forall m: nat
        ensures Times(AllKept(n), m) == 0
      {
        TimesOfThree(AllKept(n - 1), Kept(n - 1), [], m);
      }
      assert UpTo(n) == UpTo(n - 1) + [n - 1];
    }
  }

  // ---------- the merge ----------

  function FirstNamed(list: seq<CaseInfo>, name: string): (at: nat)
    ensures at <= |list|
  {
    if list == [] || list[0].caseName == name then 0 else 1 + FirstNamed(list[1..], name)
  }

  lemma {:induction false} FirstNamedIs(list: seq<CaseInfo>, name: string, at: nat)
    requires at <= |list|
    ensures at == FirstNamed(list, name) <==>
            (at < |list| ==> list[at].caseName == name) && forall p :: 0 <= p < at ==> list[p].caseName != name
  {
    if list != [] && list[0].caseName != name && at > 0 {
      FirstNamedIs(list[1..], name, at - 1);
      assert forall p :: 0 <= p < at - 1 ==> list[1..][p] == list[p + 1];
    }
  }

  method FindCase(list: seq<CaseInfo>, name: string) returns (at: nat)
    ensures at == FirstNamed(list, name)
  {
    at := 0;
    while at < |list| && list[at].caseName != name
      invariant at <= |list|
      invariant forall p :: 0 <= p < at ==> list[p].caseName != name
    {
      at := at + 1;
    }
    FirstNamedIs(list, name, at);
  }

  /** The list being merged, and the place where the next unmatched local case goes. */
  datatype State = State(list: seq<CaseInfo>, keep: nat)

  function MergeStep(pb: Problem, st: State, k: nat): (next: State)
    requires pb.WellFormed() && k < |pb.local| && st.keep <= |st.list|
    ensures next.keep <= |next.list|
  {
    var at := FirstNamed(st.list, pb.Wanted(k));
    if at < |st.list| then
      State(st.list[at := Overridden(st.list[at], pb.local[k])], at + 1)
    else
      var place := if k == 0 then at else st.keep;
      State(Spliced(st.list, place, pb.local[k]), place + 1)
  }

  function MergeUpTo(pb: Problem, k: nat): (st: State)
    requires pb.WellFormed() && k <= |pb.local|
    ensures st.keep <= |st.list|
  {
    if k == 0 then State(pb.shared, 0) else MergeStep(pb, MergeUpTo(pb, k - 1), k - 1)
  }

  /** One turn of the loop: replace the shared case, or insert at the kept place. */
  method MergeOne(pb: Problem, before: seq<CaseInfo>, place: nat, k: nat) returns (list: seq<CaseInfo>, keep: nat)
    requires pb.WellFormed() && k < |pb.local| && place <= |before|
    ensures State(list, keep) == MergeStep(pb, State(before, place), k)
  {
    var at := FindCase(before, pb.Wanted(k));
    if at < |before| {
      list := before[at := Overridden(before[at], pb.local[k])];
      keep := at + 1;
    } else if k == 0 {
      list := Spliced(before, at, pb.local[k]);
      keep := at + 1;
    } else {
      list := Spliced(before, place, pb.local[k]);
      keep := place + 1;
    }
  }

  /** The merge as the source runs it, over the list and an iterator into it. */
  method MergeCase(pb: Problem) returns (list: seq<CaseInfo>)
    requires pb.WellFormed()
    ensures list == MergeUpTo(pb, |pb.local|).list
  {
    list := pb.shared;
    var keep: nat := 0;
    for k := 0 to |pb.local|
      invariant State(list, keep) == MergeUpTo(pb, k)
    {
      list, keep := MergeOne(pb, list, keep, k);
    }
  }

  /** Where the next unmatched local case goes: behind the last local case handled. */
  ghost predicate KeepsPlace(os: seq<Origin>, k: nat, keep: nat) {
    keep <= |os| && (k > 0 ==> keep > 0 && os[keep - 1].Holds(k - 1))
  }

  ghost predicate Merging(pb: Problem, os: seq<Origin>, k: nat, list: seq<CaseInfo>, keep: nat) {
    pb.WellFormed() && k <= |pb.local| && pb.Renders(os, k, list) && pb.IsOverlay(os, k) && KeepsPlace(os, k, keep)
  }

  lemma FoundIsFree(pb: Problem, os: seq<Origin>, list: seq<CaseInfo>, k: nat, at: nat)
    requires pb.WellFormed() && k < |pb.local| && pb.NoClash(k + 1) && pb.Renders(os, k, list)
    requires at < |list| && list[at].caseName == pb.Wanted(k)
    ensures os[at].Kept?
  {
  }

  lemma OverrideRenders(pb: Problem, os: seq<Origin>, list: seq<CaseInfo>, k: nat, at: nat)
    requires k < |pb.local| && pb.Renders(os, k, list) && at < |list| && os[at].Kept?
    ensures pb.Renders(os[at := Override(os[at].slot, k)], k + 1, list[at := Overridden(list[at], pb.local[k])])
  {
  }

  lemma OverrideMatched(pb: Problem, os: seq<Origin>, list: seq<CaseInfo>, k: nat, at: nat)
    requires pb.WellFormed() && k < |pb.local| && pb.Matched(os) && pb.Renders(os, k, list)
    requires at < |list| && os[at].Kept? && pb.StandsFor(k, os[at])
    requires forall p :: 0 <= p < at ==> list[p].caseName != pb.Wanted(k)
    ensures pb.Matched(os[at := Override(os[at].slot, k)])
  {
  }

  lemma OverridePlaced(pb: Problem, os: seq<Origin>, k: nat, at: nat)
    requires pb.Placed(os) && at < |os| && os[at].Kept?
    ensures pb.Placed(os[at := Override(os[at].slot, k)])
  {
  }

  lemma OverrideStep(pb: Problem, os: seq<Origin>, list: seq<CaseInfo>, k: nat, at: nat)
    requires pb.WellFormed() && k < |pb.local| && pb.IsOverlay(os, k) && pb.Renders(os, k, list)
    requires at < |list| && list[at].caseName == pb.Wanted(k) && os[at].Kept?
    requires forall p :: 0 <= p < at ==> list[p].caseName != pb.Wanted(k)
    ensures Merging(pb, os[at := Override(os[at].slot, k)], k + 1, list[at := Overridden(list[at], pb.local[k])], at + 1)
  {
    OverrideRenders(pb, os, list, k, at);
    OverrideMatched(pb, os, list, k, at);
    OverridePlaced(pb, os, k, at);
    ReplacedSlots(os, at, k);
    ReplacedOnce(os, at, k);
  }

  lemma InsertRenders(pb: Problem, os: seq<Origin>, list: seq<CaseInfo>, k: nat, keep: nat)
    requires k < |pb.local| && pb.Renders(os, k, list) && keep <= |os|
    ensures pb.Renders(Spliced(os, keep, Insert(k)), k + 1, Spliced(list, keep, pb.local[k]))
  {
  }

  lemma InsertMatched(pb: Problem, os: seq<Origin>, list: seq<CaseInfo>, k: nat, keep: nat)
    requires pb.WellFormed() && k < |pb.local| && pb.Matched(os) && pb.Renders(os, k, list) && keep <= |os|
    requires forall p :: 0 <= p < |list| ==> list[p].caseName != pb.Wanted(k)
    ensures pb.Matched(Spliced(os, keep, Insert(k)))
  {
    var os' := Spliced(os, keep, Insert(k));
    SplicedAt(os, keep, Insert(k), os');
    forall q | 0 <= q < |os|
      ensures os[q].Kept? ==> !pb.StandsFor(k, os[q])
    {
      assert pb.InRange(os[q], k) && list[q] == pb.Shown(os[q]);
    }
    forall p, q | 0 <= p < |os'| && 0 <= q < |os'|
      ensures pb.Settled(os'[p], os'[q], q < p)
    {
      var p0, q0 := if p < keep then p else p - 1, if q < keep then q else q - 1;
      if p != keep && q != keep { assert pb.Settled(os[p0], os[q0], q0 < p0); }
    }
  }

  lemma InsertPlaced(pb: Problem, os: seq<Origin>, k: nat, keep: nat)
    requires pb.Placed(os) && KeepsPlace(os, k, keep) && (k == 0 ==> keep == |os|)
    requires forall p :: 0 <= p < |os| && os[p].Insert? ==> os[p].local < k
    ensures pb.Placed(Spliced(os, keep, Insert(k)))
  {
    var os' := Spliced(os, keep, Insert(k));
    SplicedAt(os, keep, Insert(k), os');
    forall p | 0 <= p < |os'| && os'[p].Insert? && os'[p].local > 0
      ensures p > 0 && os'[p - 1].Holds(os'[p].local - 1)
    {
      if p > keep {
        assert os'[p] == os[p - 1];
        assert p - 1 > 0 && os[p - 2].Holds(os[p - 1].local - 1);
      }
    }
    forall p, q | 0 <= p < q < |os'| && os'[p] == Insert(0)
      ensures os'[q].Insert?
    {
      if q != keep && p != keep {
        assert os'[p] == os[if p < keep then p else p - 1] && os'[q] == os[if q < keep then q else q - 1];
      }
    }
  }

  lemma InsertStep(pb: Problem, os: seq<Origin>, list: seq<CaseInfo>, k: nat, keep: nat)
    requires pb.WellFormed() && k < |pb.local| && pb.IsOverlay(os, k) && pb.Renders(os, k, list)
    requires KeepsPlace(os, k, keep) && (k == 0 ==> keep == |os|)
    requires forall p :: 0 <= p < |list| ==> list[p].caseName != pb.Wanted(k)
    ensures Merging(pb, Spliced(os, keep, Insert(k)), k + 1, Spliced(list, keep, pb.local[k]), keep + 1)
  {
    SplicedAt(os, keep, Insert(k), Spliced(os, keep, Insert(k)));
    SplicedSlots(os, keep, k);
    SplicedOnce(os, keep, k);
    assert forall p :: 0 <= p < |os| && os[p].Insert? ==> pb.InRange(os[p], k);
    InsertRenders(pb, os, list, k, keep);
    InsertMatched(pb, os, list, k, keep);
    InsertPlaced(pb, os, k, keep);
  }

  /** The origins after a step, whether or not the entry it lands on is free. */
  ghost function Track(pb: Problem, st: State, os: seq<Origin>, k: nat): (next: seq<Origin>)
    requires pb.WellFormed() && k < |pb.local| && st.keep <= |st.list| == |os|
    ensures |next| == |MergeStep(pb, st, k).list|
  {
    var at := FirstNamed(st.list, pb.Wanted(k));
    if at < |os| then os[at := if os[at].Insert? then Insert(k) else Override(os[at].slot, k)]
    else Spliced(os, if k == 0 then at else st.keep, Insert(k))
  }

  /** Local case `k` lands on no entry that holds another local case. */
  ghost predicate LandsFree(pb: Problem, st: State, os: seq<Origin>, k: nat)
    requires pb.WellFormed() && k < |pb.local| && |st.list| == |os|
  {
    var at := FirstNamed(st.list, pb.Wanted(k));
    at < |os| ==> os[at].Kept?
  }

  lemma MergingNext(pb: Problem, os: seq<Origin>, st: State, k: nat)
    requires pb.WellFormed() && k < |pb.local| && Merging(pb, os, k, st.list, st.keep) && LandsFree(pb, st, os, k)
    ensures var next := MergeStep(pb, st, k); Merging(pb, Track(pb, st, os, k), k + 1, next.list, next.keep)
  {
    var at := FirstNamed(st.list, pb.Wanted(k));
    FirstNamedIs(st.list, pb.Wanted(k), at);
    if at < |st.list| {
      OverrideStep(pb, os, st.list, k, at);
    } else {
      InsertStep(pb, os, st.list, k, if k == 0 then at else st.keep);
    }
  }

  lemma NoClashLandsFree(pb: Problem, os: seq<Origin>, st: State, k: nat)
    requires pb.WellFormed() && k < |pb.local| && pb.NoClash(k + 1) && pb.Renders(os, k, st.list)
    ensures LandsFree(pb, st, os, k)
  {
    var at := FirstNamed(st.list, pb.Wanted(k));
    FirstNamedIs(st.list, pb.Wanted(k), at);
    if at < |os| { FoundIsFree(pb, os, st.list, k, at); }
  }

  lemma MergingStart(pb: Problem)
    requires pb.WellFormed()
    ensures Merging(pb, AllKept(|pb.shared|), 0, pb.shared, 0)
  {
    AllKeptParts(|pb.shared|);
  }

  // ---------- the whole run ----------

  /** The states of a merge, first to last; `StepAt` marks the steps a proof looks at. */
  ghost predicate IsRun(pb: Problem, sts: seq<State>)
    requires pb.WellFormed()
  {
    && 0 < |sts| <= |pb.local| + 1
    && sts[0] == State(pb.shared, 0)
    && (forall i {:trigger StepAt(i)} :: StepAt(i) && 0 <= i < |sts| - 1 ==> IsStep(pb, sts[i], i, sts[i + 1]))
  }

  ghost predicate IsStep(pb: Problem, st: State, k: nat, next: State)
    requires pb.WellFormed() && k < |pb.local|
  {
    st.keep <= |st.list| && next == MergeStep(pb, st, k)
  }

  lemma {:induction false} RunOf(pb: Problem, k: nat) returns (sts: seq<State>)
    requires pb.WellFormed() && k <= |pb.local|
    ensures IsRun(pb, sts) && |sts| == k + 1 && sts[k] == MergeUpTo(pb, k)
  {
    if k == 0 {
      sts := [State(pb.shared, 0)];
    } else {
      var sts0 := RunOf(pb, k - 1);
      sts := sts0 + [MergeUpTo(pb, k)];
    }
  }

  lemma {:induction false} MergingAll(pb: Problem, sts: seq<State>, k: nat) returns (os: seq<Origin>)
    requires pb.WellFormed() && IsRun(pb, sts) && k < |sts| && pb.NoClash(k)
    ensures Merging(pb, os, k, sts[k].list, sts[k].keep)
  {
    if k == 0 {
      os := AllKept(|pb.shared|);
      MergingStart(pb);
    } else {
      os := MergingAll(pb, sts, k - 1);
      assert StepAt(k - 1);
      NoClashLandsFree(pb, os, sts[k - 1], k - 1);
      MergingNext(pb, os, sts[k - 1], k - 1);
      os := Track(pb, sts[k - 1], os, k - 1);
    }
  }

  /**
   Without clashes, every shared entry keeps its place, every local case appears once, and local cases
   without a counterpart follow the local case before them.
   */
  ghost predicate IsMerged(pb: Problem, list: seq<CaseInfo>)
    requires pb.WellFormed()
  {
    exists os :: pb.Renders(os, |pb.local|, list) && pb.IsOverlay(os, |pb.local|)
  }

  lemma MergeIsOverlay(pb: Problem)
    requires pb.WellFormed() && pb.NoClash(|pb.local|)
    ensures IsMerged(pb, MergeUpTo(pb, |pb.local|).list)
  {
    var sts := RunOf(pb, |pb.local|);
    var os := MergingAll(pb, sts, |pb.local|);
  }

  // ---------- and only then ----------

  ghost predicate Brought(pb: Problem, name: string) {
    exists j :: 0 <= j < |pb.local| && pb.local[j].caseName == name
  }

  /** No shared entry already bears a local case's name. */
  ghost predicate SharedAreForeign(pb: Problem) {
    forall i :: 0 <= i < |pb.shared| ==> !Brought(pb, pb.shared[i].caseName)
  }

  /** Entries that bear a local case's name. */
  ghost function LocalNamed(pb: Problem, list: seq<CaseInfo>): nat {
    if list == [] then 0 else (if Brought(pb, list[0].caseName) then 1 else 0) + LocalNamed(pb, list[1..])
  }

  lemma {:induction false} LocalNamedConcat(pb: Problem, a: seq<CaseInfo>, b: seq<CaseInfo>)
    ensures LocalNamed(pb, a + b) == LocalNamed(pb, a) + LocalNamed(pb, b)
  {
    if a == [] {
      assert a + b == b;
    } else {
      assert (a + b)[0] == a[0] && (a + b)[1..] == a[1..] + b;
      LocalNamedConcat(pb, a[1..], b);
    }
  }

  lemma LocalNamedAround(pb: Problem, a: seq<CaseInfo>, x: CaseInfo, b: seq<CaseInfo>)
    ensures LocalNamed(pb, a + [x] + b) == LocalNamed(pb, a) + (if Brought(pb, x.caseName) then 1 else 0) + LocalNamed(pb, b)
  {
    LocalNamedConcat(pb, a + [x], b);
    LocalNamedConcat(pb, a, [x]);
    assert LocalNamed(pb, [x]) == (if Brought(pb, x.caseName) then 1 else 0) + LocalNamed(pb, []);
  }

  /** Local case `k` lands on an entry that already bears a local name. */
  ghost predicate Hits(pb: Problem, st: State, k: nat)
    requires pb.WellFormed() && k < |pb.local|
  {
    var at := FirstNamed(st.list, pb.Wanted(k));
    at < |st.list| && Brought(pb, st.list[at].caseName)
  }

  lemma ReplacedNames(pb: Problem, list: seq<CaseInfo>, at: nat, x: CaseInfo)
    requires at < |list| && Brought(pb, x.caseName)
    ensures LocalNamed(pb, list[at := x]) == LocalNamed(pb, list) + (if Brought(pb, list[at].caseName) then 0 else 1)
  {
    var a, b := list[..at], list[at + 1..];
    LocalNamedAround(pb, a, list[at], b);
    LocalNamedAround(pb, a, x, b);
    assert a + [list[at]] + b == list && a + [x] + b == list[at := x];
  }

  lemma SplicedNames(pb: Problem, list: seq<CaseInfo>, at: nat, x: CaseInfo)
    requires at <= |list| && Brought(pb, x.caseName)
    ensures LocalNamed(pb, Spliced(list, at, x)) == LocalNamed(pb, list) + 1
  {
    var a, b := list[..at], list[at..];
    LocalNamedAround(pb, a, x, b);
    LocalNamedConcat(pb, a, b);
    assert a + b == list;
  }

  /** A step brings in one more local name, unless it lands on an entry that already had one. */
  lemma StepBringsOne(pb: Problem, st: State, k: nat)
    requires pb.WellFormed() && k < |pb.local| && st.keep <= |st.list|
    ensures LocalNamed(pb, MergeStep(pb, st, k).list) == LocalNamed(pb, st.list) + (if Hits(pb, st, k) then 0 else 1)
  {
    var at := FirstNamed(st.list, pb.Wanted(k));
    assert Brought(pb, pb.local[k].caseName);
    if at < |st.list| {
      ReplacedNames(pb, st.list, at, Overridden(st.list[at], pb.local[k]));
    } else {
      SplicedNames(pb, st.list, if k == 0 then at else st.keep, pb.local[k]);
    }
  }

  lemma {:induction false} ForeignStart(pb: Problem, list: seq<CaseInfo>)
    requires forall i :: 0 <= i < |list| ==> !Brought(pb, list[i].caseName)
    ensures LocalNamed(pb, list) == 0
  {
    if list != [] { ForeignStart(pb, list[1..]); }
  }

  ghost predicate GrowsByOne(c: seq<nat>) {
    |c| > 0 && c[0] == 0 && forall i :: 0 < i < |c| ==> c[i] <= c[i - 1] + 1
  }

  lemma StepGrows(pb: Problem, sts: seq<State>, i: nat)
    requires pb.WellFormed() && IsRun(pb, sts) && 0 < i < |sts|
    ensures LocalNamed(pb, sts[i].list) <= LocalNamed(pb, sts[i - 1].list) + 1
  {
    assert StepAt(i - 1);
    StepBringsOne(pb, sts[i - 1], i - 1);
  }

  /** The number of local names after each step. */
  lemma CountSteps(pb: Problem, sts: seq<State>) returns (c: seq<nat>)
    requires pb.WellFormed() && SharedAreForeign(pb) && IsRun(pb, sts)
    ensures |c| == |sts| && GrowsByOne(c) && forall i :: 0 <= i < |c| ==> c[i] == LocalNamed(pb, sts[i].list)
  {
    c := seq(|sts|, i requires 0 <= i < |sts| => LocalNamed(pb, sts[i].list));
    ForeignStart(pb, pb.shared);
    forall i | 0 < i < |c|
      ensures c[i] <= c[i - 1] + 1
    {
      StepGrows(pb, sts, i);
    }
  }

  lemma {:induction false} CountBound(c: seq<nat>, from: nat, to: nat)
    requires GrowsByOne(c) && from <= to < |c|
    ensures c[to] <= c[from] + to - from
  {
    if from < to { CountBound(c, from, to - 1); }
  }

  /** Entries that hold a local case, counted by entry and by case. */
  ghost function Holders(os: seq<Origin>): nat {
    if os == [] then 0 else (if os[0].Kept? then 0 else 1) + Holders(os[1..])
  }

  ghost function SumTimes(os: seq<Origin>, k: nat): nat {
    if k == 0 then 0 else SumTimes(os, k - 1) + Times(os, k - 1)
  }

  lemma {:induction false} SumTimesCons(os: seq<Origin>, k: nat)
    requires os != []
    ensures SumTimes(os, k) == SumTimes(os[1..], k) + (if !os[0].Kept? && os[0].local < k then 1 else 0)
  {
    if k > 0 { SumTimesCons(os, k - 1); }
  }

  lemma {:induction false} HoldersAreSum(os: seq<Origin>, k: nat)
    requires forall p :: 0 <= p < |os| && !os[p].Kept? ==> os[p].local < k
    ensures Holders(os) == SumTimes(os, k)
  {
    if os == [] {
      SumOfNone(k);
    } else {
      SumTimesCons(os, k);
      HoldersAreSum(os[1..], k);
    }
  }

  lemma {:induction false} SumOfNone(k: nat)
    ensures SumTimes([], k) == 0
  {
    if k > 0 { SumOfNone(k - 1); }
  }

  lemma {:induction false} SumOfOnce(os: seq<Origin>, j: nat, k: nat)
    requires j <= k && OnceEach(os, k)
    ensures SumTimes(os, j) == j
  {
    if j > 0 { SumOfOnce(os, j - 1, k); }
  }

  lemma {:induction false} HoldersAreLocalNamed(pb: Problem, os: seq<Origin>, k: nat, list: seq<CaseInfo>)
    requires SharedAreForeign(pb) && pb.Renders(os, k, list)
    ensures LocalNamed(pb, list) == Holders(os)
  {
    if os != [] {
      assert pb.InRange(os[0], k) && list[0] == pb.Shown(os[0]);
      assert pb.Renders(os[1..], k, list[1..]);
      HoldersAreLocalNamed(pb, os[1..], k, list[1..]);
    }
  }

  lemma OverlayNamesAll(pb: Problem, os: seq<Origin>, k: nat, list: seq<CaseInfo>)
    requires pb.WellFormed() && k <= |pb.local| && SharedAreForeign(pb) && pb.Renders(os, k, list) && pb.IsOverlay(os, k)
    ensures LocalNamed(pb, list) == k
  {
    HoldersAreLocalNamed(pb, os, k, list);
    assert forall p :: 0 <= p < |os| ==> pb.InRange(os[p], k);
    HoldersAreSum(os, k);
    SumOfOnce(os, k, k);
  }

  lemma {:induction false} HolderExists(os: seq<Origin>, m: nat) returns (p: nat)
    requires Times(os, m) > 0
    ensures p < |os| && os[p].Holds(m)
  {
    if os[0].Holds(m) {
      p := 0;
    } else {
      p := HolderExists(os[1..], m);
      p := p + 1;
    }
  }

  /** The first clash lands on an entry that an earlier local case brought in. */
  lemma FirstClashHits(pb: Problem, sts: seq<State>, j: nat, m: nat)
    requires pb.WellFormed() && IsRun(pb, sts) && m < |sts|
    requires j < m < |pb.local| && pb.NoClash(m) && pb.Wanted(m) == pb.local[j].caseName
    ensures Hits(pb, sts[m], m)
  {
    var os := MergingAll(pb, sts, m);
    var st := sts[m];
    var p := HolderExists(os, j);
    assert pb.InRange(os[p], m) && st.list[p] == pb.Shown(os[p]);
    assert st.list[p].caseName == pb.Wanted(m);
    FirstNamedIs(st.list, pb.Wanted(m), FirstNamed(st.list, pb.Wanted(m)));
  }

  lemma {:induction false} LeastClash(pb: Problem, k: nat) returns (j: nat, m: nat)
    requires pb.WellFormed() && k <= |pb.local| && !pb.NoClash(k)
    ensures j < m < k && pb.NoClash(m) && pb.Wanted(m) == pb.local[j].caseName
  {
    if pb.NoClash(k - 1) {
      m := k - 1;
      j :| 0 <= j < m && pb.Wanted(m) == pb.local[j].caseName;
    } else {
      j, m := LeastClash(pb, k - 1);
    }
  }

  lemma MergedNamesAll(pb: Problem, list: seq<CaseInfo>)
    requires pb.WellFormed() && SharedAreForeign(pb)
    ensures IsMerged(pb, list) ==> LocalNamed(pb, list) == |pb.local|
  {
    if os :| pb.Renders(os, |pb.local|, list) && pb.IsOverlay(os, |pb.local|) {
      OverlayNamesAll(pb, os, |pb.local|, list);
    }
  }

  lemma ClashCosts(pb: Problem)
    requires pb.WellFormed() && SharedAreForeign(pb) && !pb.NoClash(|pb.local|)
    ensures LocalNamed(pb, MergeUpTo(pb, |pb.local|).list) < |pb.local|
  {
    var j, m := LeastClash(pb, |pb.local|);
    var sts := RunOf(pb, |pb.local|);
    FirstClashHits(pb, sts, j, m);
    assert StepAt(m);
    StepBringsOne(pb, sts[m], m);
    var c := CountSteps(pb, sts);
    CountBound(c, 0, m);
    CountBound(c, m + 1, |pb.local|);
  }

  /** Exactly when the merge keeps every case: no local case stands for a name that an earlier one brought in. */
  lemma MergeKeepsAllExactly(pb: Problem)
    requires pb.WellFormed() && SharedAreForeign(pb)
    ensures IsMerged(pb, MergeUpTo(pb, |pb.local|).list) <==> pb.NoClash(|pb.local|)
  {
    var n := |pb.local|;
    if pb.NoClash(n) {
      MergeIsOverlay(pb);
    } else {
      ClashCosts(pb);
      MergedNamesAll(pb, MergeUpTo(pb, n).list);
    }
  }

  // ---------- a clash ----------

  /**
   Two local cases of the same name, with the user path equal to the shared path: the second
   takes over the entry the first one brought in, and the first is gone.
   */
  lemma ClashLosesACase(first: CaseInfo, second: CaseInfo)
    requires first.caseName == second.caseName == "a" && first.caseComment != second.caseComment
    ensures var pb := Problem([], [first, second], "", "");
      && pb.WellFormed() && !pb.NoClash(2)
      && |MergeUpTo(pb, 2).list| == 1 && MergeUpTo(pb, 2).list[0].caseComment == second.caseComment
  {
    var pb := Problem([], [first, second], "", "");
    assert pb.Wanted(0) == "a" && pb.Wanted(1) == "a";
    assert MergeUpTo(pb, 1) == MergeStep(pb, MergeUpTo(pb, 0), 0) == State([first], 1);
    assert MergeUpTo(pb, 2) == MergeStep(pb, MergeUpTo(pb, 1), 1);
    assert FirstNamed([first], "a") == 0;
  }

  // ---------- when the paths cannot clash ----------

  /** If neither case path is a prefix of the other, local cases under the user path never clash. */
  lemma SeparatePathsNeverClash(pb: Problem)
    requires forall m :: 0 <= m < |pb.local| ==> pb.userPath <= pb.local[m].caseName
    requires !(pb.userPath <= pb.sharedPath) && !(pb.sharedPath <= pb.userPath)
    ensures pb.WellFormed() && pb.NoClash(|pb.local|)
  {
  }
}
