/**
 Which local cases survive the merge, for all lists: shared entries may bear local names, and a
 clash may be harmless.
 */
module CaseOrigins {
  import opened Basics
  import opened CaseData
  import opened CaseMerge

  /** The states of a whole or partial merge, each with what its entries hold. */
  datatype Trace = Trace(sts: seq<State>, oss: seq<seq<Origin>>)

  ghost predicate IsTrace(pb: Problem, t: Trace, k: nat) {
    && pb.WellFormed() && k <= |pb.local| && IsRun(pb, t.sts) && |t.oss| == |t.sts| == k + 1
    && t.oss[0] == AllKept(|pb.shared|)
    && (forall i {:trigger StepAt(i)} :: StepAt(i) && 0 <= i < k ==> Tracked(pb, t.sts[i], t.oss[i], i, t.oss[i + 1]))
  }

  /** One step of the trace, landings on taken entries included. */
  ghost predicate Tracked(pb: Problem, st: State, os: seq<Origin>, k: nat, next: seq<Origin>)
    requires pb.WellFormed() && k < |pb.local|
  {
    st.keep <= |st.list| == |os| && next == Track(pb, st, os, k)
  }

  ghost predicate FreeAt(pb: Problem, t: Trace, j: nat)
    requires pb.WellFormed() && j < |pb.local| && j < |t.sts| && j < |t.oss|
  {
    |t.sts[j].list| == |t.oss[j]| && LandsFree(pb, t.sts[j], t.oss[j], j)
  }

  ghost predicate Free(pb: Problem, t: Trace, k: nat)
    requires pb.WellFormed() && k <= |pb.local| && k <= |t.sts| && k <= |t.oss|
  {
    forall j :: 0 <= j < k ==> FreeAt(pb, t, j)
  }

  /** Every merge has its trace, which ends with the merged list. */
  lemma {:induction false} TraceOf(pb: Problem) returns (t: Trace)
    requires pb.WellFormed()
    ensures IsTrace(pb, t, |pb.local|) && t.sts[|pb.local|] == MergeUpTo(pb, |pb.local|)
  {
    var sts := RunOf(pb, |pb.local|);
    t := TraceOfRun(pb, sts, |pb.local|);
    assert t.sts == sts;
  }

  lemma {:induction false} TraceOfRun(pb: Problem, sts: seq<State>, k: nat) returns (t: Trace)
    requires pb.WellFormed() && IsRun(pb, sts) && k < |sts|
    ensures IsTrace(pb, t, k) && t.sts == sts[..k + 1]
    ensures |t.oss[k]| == |sts[k].list|
  {
    if k == 0 {
      t := Trace([sts[0]], [AllKept(|pb.shared|)]);
    } else {
      var t0 := TraceOfRun(pb, sts, k - 1);
      assert StepAt(k - 1);
      t := Trace(sts[..k + 1], t0.oss + [Track(pb, sts[k - 1], t0.oss[k - 1], k - 1)]);
    }
  }

  lemma {:induction false} FreeMerges(pb: Problem, t: Trace, n: nat, k: nat)
    requires IsTrace(pb, t, n) && k <= n && Free(pb, t, k)
    ensures Merging(pb, t.oss[k], k, t.sts[k].list, t.sts[k].keep)
  {
    if k == 0 {
      MergingStart(pb);
    } else {
      FreeMerges(pb, t, n, k - 1);
      assert FreeAt(pb, t, k - 1) && StepAt(k - 1);
      MergingNext(pb, t.oss[k - 1], t.sts[k - 1], k - 1);
    }
  }

  // ---------- counting the entries that hold a local case ----------

  lemma {:induction false} HoldersConcat(a: seq<Origin>, b: seq<Origin>)
    ensures Holders(a + b) == Holders(a) + Holders(b)
  {
    if a == [] {
      assert a + b == b;
    } else {
      assert (a + b)[0] == a[0] && (a + b)[1..] == a[1..] + b;
      HoldersConcat(a[1..], b);
    }
  }

  lemma HoldersOfThree(a: seq<Origin>, o: Origin, b: seq<Origin>)
    ensures Holders(a + [o] + b) == Holders(a) + (if o.Kept? then 0 else 1) + Holders(b)
  {
    HoldersConcat(a + [o], b);
    HoldersConcat(a, [o]);
    assert Holders([o]) == (if o.Kept? then 0 else 1) + Holders([]);
  }

  /** A step adds one entry that holds a local case, unless it lands on one. */
  lemma TrackHolds(pb: Problem, st: State, os: seq<Origin>, k: nat)
    requires pb.WellFormed() && k < |pb.local| && st.keep <= |st.list| == |os|
    ensures Holders(Track(pb, st, os, k)) == Holders(os) + (if LandsFree(pb, st, os, k) then 1 else 0)
  {
    var at := FirstNamed(st.list, pb.Wanted(k));
    var next := Track(pb, st, os, k);
    if at < |os| {
      var a, b := os[..at], os[at + 1..];
      assert a + [os[at]] + b == os && a + [next[at]] + b == next;
      HoldersOfThree(a, os[at], b);
      HoldersOfThree(a, next[at], b);
    } else {
      var place := if k == 0 then at else st.keep;
      var a, b := os[..place], os[place..];
      HoldersOfThree(a, Insert(k), b);
      HoldersConcat(a, b);
      assert a + b == os;
    }
  }

  ghost predicate LocalsBelow(os: seq<Origin>, k: nat) {
    forall p :: 0 <= p < |os| && !os[p].Kept? ==> os[p].local < k
  }

  lemma {:induction false} NoneHeld(n: nat)
    ensures Holders(AllKept(n)) == 0
  {
    if n > 0 {
      NoneHeld(n - 1);
      assert AllKept(n) == AllKept(n - 1) + [Kept(n - 1)] + [];
      HoldersOfThree(AllKept(n - 1), Kept(n - 1), []);
    }
  }

  lemma {:induction false} HoldersCount(pb: Problem, t: Trace, n: nat, k: nat)
    requires IsTrace(pb, t, n) && k <= n
    ensures LocalsBelow(t.oss[k], k) && Holders(t.oss[k]) <= k
    ensures Holders(t.oss[k]) == k ==> Free(pb, t, k)
  {
    if k == 0 {
      NoneHeld(|pb.shared|);
    } else {
      HoldersCount(pb, t, n, k - 1);
      assert StepAt(k - 1);
      TrackHolds(pb, t.sts[k - 1], t.oss[k - 1], k - 1);
      TrackBelow(pb, t.sts[k - 1], t.oss[k - 1], k - 1);
    }
  }

  lemma TrackBelow(pb: Problem, st: State, os: seq<Origin>, k: nat)
    requires pb.WellFormed() && k < |pb.local| && st.keep <= |st.list| == |os| && LocalsBelow(os, k)
    ensures LocalsBelow(Track(pb, st, os, k), k + 1)
  {
  }

  lemma {:induction false} SumAtLeast(os: seq<Origin>, k: nat)
    requires forall m :: 0 <= m < k ==> Times(os, m) > 0
    ensures SumTimes(os, k) >= k
  {
    if k > 0 { SumAtLeast(os, k - 1); }
  }

  // ---------- the results ----------

  /** None of the first `n` local cases is lost. */
  ghost predicate AllSurvive(os: seq<Origin>, n: nat) {
    forall m :: 0 <= m < n ==> Times(os, m) > 0
  }

  /**
   For all lists: every local case survives exactly if no step lands on an entry taken before,
   and then the merged list is the overlay.
   */
  lemma SurviveExactly(pb: Problem, t: Trace)
    requires IsTrace(pb, t, |pb.local|)
    ensures var n := |pb.local|;
      && (AllSurvive(t.oss[n], n) <==> Free(pb, t, n))
      && (AllSurvive(t.oss[n], n) ==> pb.IsOverlay(t.oss[n], n) && pb.Renders(t.oss[n], n, t.sts[n].list))
  {
    var n := |pb.local|;
    if AllSurvive(t.oss[n], n) {
      HoldersCount(pb, t, n, n);
      HoldersAreSum(t.oss[n], n);
      SumAtLeast(t.oss[n], n);
    }
    if Free(pb, t, n) { FreeMerges(pb, t, n, n); }
  }

  /** Without a clash all landings are free, and only then if no shared entry bears a local name. */
  lemma FreeIsNoClash(pb: Problem, t: Trace)
    requires IsTrace(pb, t, |pb.local|) && t.sts[|pb.local|] == MergeUpTo(pb, |pb.local|)
    ensures pb.NoClash(|pb.local|) ==> Free(pb, t, |pb.local|)
    ensures SharedAreForeign(pb) && Free(pb, t, |pb.local|) ==> pb.NoClash(|pb.local|)
  {
    var n := |pb.local|;
    if pb.NoClash(n) { NoClashIsFree(pb, t, n); }
    if SharedAreForeign(pb) && Free(pb, t, n) {
      FreeMerges(pb, t, n, n);
      MergeKeepsAllExactly(pb);
    }
  }

  lemma {:induction false} NoClashIsFree(pb: Problem, t: Trace, k: nat)
    requires IsTrace(pb, t, |pb.local|) && k <= |pb.local| && pb.NoClash(k)
    ensures Free(pb, t, k)
  {
    if k > 0 {
      NoClashIsFree(pb, t, k - 1);
      FreeMerges(pb, t, |pb.local|, k - 1);
      NoClashLandsFree(pb, t.oss[k - 1], t.sts[k - 1], k - 1);
    }
  }

  /** Otherwise a clash may be harmless: a shared entry in front bears the clashing name and is still free. */
  lemma ClashMayBeHarmless(shared: CaseInfo, local: CaseInfo)
    ensures var pb := Problem([shared.(caseName := "ua"), shared.(caseName := "a")],
                              [local.(caseName := "ua"), local.(caseName := "uua")], "u", "");
      pb.WellFormed() && !pb.NoClash(2) && IsMerged(pb, MergeUpTo(pb, 2).list)
  {
    var pb := Problem([shared.(caseName := "ua"), shared.(caseName := "a")],
                      [local.(caseName := "ua"), local.(caseName := "uua")], "u", "");
    assert pb.Wanted(0) == "a" && pb.Wanted(1) == "ua" == pb.local[0].caseName;
    FirstNamedIs(pb.shared, "a", 1);
    MergingStart(pb);
    var os0 := AllKept(2);
    MergingNext(pb, os0, MergeUpTo(pb, 0), 0);
    var os1 := Track(pb, MergeUpTo(pb, 0), os0, 0);
    FirstNamedIs(MergeUpTo(pb, 1).list, "ua", 0);
    MergingNext(pb, os1, MergeUpTo(pb, 1), 1);
  }
}
