/** Stable sorting under a total preorder: a specification, why it has one answer, and what sorting twice means. */
module StableSort {

  type Order<!T> = (T, T) -> bool

  ghost predicate TotalPreorder<T(!new)>(le: Order<T>) {
    && (forall x, y :: le(x, y) || le(y, x))
    && (forall x, y, z :: le(x, y) && le(y, z) ==> le(x, z))
  }

  ghost predicate Sorted<T>(s: seq<T>, le: Order<T>) {
    forall i, j :: 0 <= i < j < |s| ==> le(s[i], s[j])
  }

  predicate Same<T>(le: Order<T>, x: T, y: T) { le(x, y) && le(y, x) }

  /** The elements of `s` that are equivalent to `k`, in order. */
  ghost function Class<T>(s: seq<T>, le: Order<T>, k: T): seq<T> {
    if s == [] then [] else
      var rest := Class(s[1..], le, k);
      if Same(le, s[0], k) then [s[0]] + rest else rest
  }

  ghost predicate SameClasses<T(!new)>(a: seq<T>, b: seq<T>, le: Order<T>) {
    forall k :: Class(a, le, k) == Class(b, le, k)
  }

  /** `r` is in order, and equivalent elements stand as they stood in `s`. */
  ghost predicate IsStableSort<T(!new)>(s: seq<T>, r: seq<T>, le: Order<T>) {
    Sorted(r, le) && SameClasses(s, r, le)
  }

  function Insert<T>(x: T, s: seq<T>, le: Order<T>): (r: seq<T>)
    ensures |r| == |s| + 1
  {
    if s == [] || le(x, s[0]) then [x] + s else [s[0]] + Insert(x, s[1..], le)
  }

  function StableSorted<T>(s: seq<T>, le: Order<T>): (r: seq<T>)
    ensures |r| == |s|
  {
    if s == [] then [] else Insert(s[0], StableSorted(s[1..], le), le)
  }

  // ---------- classes ----------

  lemma {:induction false} ClassConcat<T>(a: seq<T>, b: seq<T>, le: Order<T>, k: T)
    ensures Class(a + b, le, k) == Class(a, le, k) + Class(b, le, k)
  {
    if a == [] {
      assert a + b == b;
    } else {
      assert (a + b)[0] == a[0] && (a + b)[1..] == a[1..] + b;
      ClassConcat(a[1..], b, le, k);
      var x, y := Class(a[1..], le, k), Class(b, le, k);
      assert [a[0]] + (x + y) == ([a[0]] + x) + y;
    }
  }

  lemma {:induction false} ClassMember<T>(s: seq<T>, le: Order<T>, k: T, x: T)
    ensures x in Class(s, le, k) <==> x in s && Same(le, x, k)
  {
    if s != [] {
      ClassMember(s[1..], le, k, x);
      assert s == [s[0]] + s[1..];
    }
  }

  /** How often an element occurs can be counted inside its class. */
  lemma {:induction false} ClassCount<T>(s: seq<T>, le: Order<T>, x: T)
    requires le(x, x)
    ensures multiset(s)[x] == multiset(Class(s, le, x))[x]
  {
    if s != [] {
      ClassCount(s[1..], le, x);
      assert s == [s[0]] + s[1..];
    }
  }

  lemma StableSortPermutes<T(!new)>(s: seq<T>, r: seq<T>, le: Order<T>)
    requires TotalPreorder(le) && SameClasses(s, r, le)
    ensures multiset(s) == multiset(r)
  {
    forall x: T
      ensures multiset(s)[x] == multiset(r)[x]
    {
      ClassCount(s, le, x);
      ClassCount(r, le, x);
      assert Class(s, le, x) == Class(r, le, x);
    }
  }

  // ---------- the insertion sort meets the specification ----------

  lemma {:induction false} InsertClass<T(!new)>(x: T, s: seq<T>, le: Order<T>, k: T)
    requires TotalPreorder(le)
    ensures Class(Insert(x, s, le), le, k) == Class([x] + s, le, k)
  {
    assert ([x] + s)[1..] == s;
    if s != [] && !le(x, s[0]) {
      InsertClass(x, s[1..], le, k);
      var r := Insert(x, s[1..], le);
      assert ([s[0]] + r)[1..] == r;
      assert ([x] + s[1..])[1..] == s[1..];
      assert !(Same(le, x, k) && Same(le, s[0], k));
    }
  }

  lemma {:induction false} InsertMembers<T>(x: T, s: seq<T>, le: Order<T>)
    ensures forall y :: y in Insert(x, s, le) ==> y == x || y in s
  {
    if s != [] && !le(x, s[0]) { InsertMembers(x, s[1..], le); }
  }

  lemma SortedCons<T>(x: T, s: seq<T>, le: Order<T>)
    requires Sorted(s, le) && forall y :: y in s ==> le(x, y)
    ensures Sorted([x] + s, le)
  {
  }

  lemma {:induction false} InsertSorted<T(!new)>(x: T, s: seq<T>, le: Order<T>)
    requires TotalPreorder(le) && Sorted(s, le)
    ensures Sorted(Insert(x, s, le), le)
  {
    if s == [] || le(x, s[0]) {
      SortedCons(x, s, le);
    } else {
      InsertSorted(x, s[1..], le);
      InsertMembers(x, s[1..], le);
      SortedCons(s[0], Insert(x, s[1..], le), le);
    }
  }

  lemma {:induction false} StableSortedMeetsSpec<T(!new)>(s: seq<T>, le: Order<T>)
    requires TotalPreorder(le)
    ensures IsStableSort(s, StableSorted(s, le), le)
  {
    if s != [] {
      var t := StableSorted(s[1..], le);
      StableSortedMeetsSpec(s[1..], le);
      InsertSorted(s[0], t, le);
      forall k
        ensures Class(s, le, k) == Class(Insert(s[0], t, le), le, k)
      {
        InsertClass(s[0], t, le, k);
        assert ([s[0]] + t)[1..] == t;
        assert Class(s[1..], le, k) == Class(t, le, k);
      }
    }
  }

  // ---------- one answer ----------

  lemma HeadsAgree<T(!new)>(a: seq<T>, b: seq<T>, le: Order<T>)
    requires TotalPreorder(le) && Sorted(a, le) && Sorted(b, le) && SameClasses(a, b, le)
    requires a != [] && b != []
    ensures a[0] == b[0]
  {
    ClassMember(a, le, b[0], b[0]);
    ClassMember(b, le, b[0], b[0]);
    ClassMember(a, le, a[0], a[0]);
    ClassMember(b, le, a[0], a[0]);
    assert Class(a, le, b[0]) == Class(b, le, b[0]) && Class(a, le, a[0]) == Class(b, le, a[0]);
    assert Same(le, a[0], b[0]);
    assert Class(a, le, a[0])[0] == a[0] && Class(b, le, a[0])[0] == b[0];
  }

  lemma TailsAgree<T(!new)>(a: seq<T>, b: seq<T>, le: Order<T>)
    requires SameClasses(a, b, le) && a != [] && b != [] && a[0] == b[0]
    ensures SameClasses(a[1..], b[1..], le)
  {
    forall k
      ensures Class(a[1..], le, k) == Class(b[1..], le, k)
    {
      assert Class(a, le, k) == Class(b, le, k);
      var c := if Same(le, a[0], k) then [a[0]] else [];
      assert c + Class(a[1..], le, k) == c + Class(b[1..], le, k);
      assert (c + Class(a[1..], le, k))[|c|..] == Class(a[1..], le, k);
      assert (c + Class(b[1..], le, k))[|c|..] == Class(b[1..], le, k);
    }
  }

  lemma EmptyAgrees<T(!new)>(a: seq<T>, b: seq<T>, le: Order<T>)
    requires TotalPreorder(le) && SameClasses(a, b, le) && a == []
    ensures b == []
  {
    if b != [] {
      ClassMember(b, le, b[0], b[0]);
      ClassMember(a, le, b[0], b[0]);
    }
  }

  lemma {:induction false} SortedWithSameClassesIsUnique<T(!new)>(a: seq<T>, b: seq<T>, le: Order<T>)
    requires TotalPreorder(le) && Sorted(a, le) && Sorted(b, le) && SameClasses(a, b, le)
    ensures a == b
  {
    if a == [] {
      EmptyAgrees(a, b, le);
    } else if b == [] {
      EmptyAgrees(b, a, le);
    } else {
      HeadsAgree(a, b, le);
      TailsAgree(a, b, le);
      SortedWithSameClassesIsUnique(a[1..], b[1..], le);
    }
  }

  /** A stable sort has exactly one result: any sorted arrangement that keeps the classes is it. */
  lemma StableSortIsUnique<T(!new)>(s: seq<T>, r: seq<T>, le: Order<T>)
    requires TotalPreorder(le)
    ensures IsStableSort(s, r, le) <==> r == StableSorted(s, le)
  {
    StableSortedMeetsSpec(s, le);
    if IsStableSort(s, r, le) {
      var t := StableSorted(s, le);
      forall k
        ensures Class(r, le, k) == Class(t, le, k)
      {
        assert Class(s, le, k) == Class(r, le, k) && Class(s, le, k) == Class(t, le, k);
      }
      SortedWithSameClassesIsUnique(r, t, le);
    }
  }

  // ---------- merging ----------

  /** Takes from the left while it does not exceed the right. */
  function Merge<T>(a: seq<T>, b: seq<T>, le: Order<T>): (r: seq<T>)
    ensures |r| == |a| + |b|
    decreases |a| + |b|
  {
    if b == [] then a
    else if a == [] then b
    else if le(a[0], b[0]) then [a[0]] + Merge(a[1..], b, le)
    else [b[0]] + Merge(a, b[1..], le)
  }

  lemma MergeTakesLeft<T>(a: seq<T>, b: seq<T>, le: Order<T>)
    requires a != [] && (b == [] || le(a[0], b[0]))
    ensures Merge(a, b, le)[0] == a[0] && Merge(a, b, le)[1..] == Merge(a[1..], b, le)
  {
  }

  lemma MergeTakesRight<T>(a: seq<T>, b: seq<T>, le: Order<T>)
    requires b != [] && (a == [] || !le(a[0], b[0]))
    ensures Merge(a, b, le)[0] == b[0] && Merge(a, b, le)[1..] == Merge(a, b[1..], le)
  {
  }

  /** Whether a merge that has taken `x` and `y` elements takes the next one from the left. */
  ghost predicate LeftIsNext<T>(a: seq<T>, b: seq<T>, x: int, y: int, le: Order<T>) {
    y >= |b| || (0 <= x < |a| && 0 <= y && le(a[x], b[y]))
  }

  /** `xs[i]` elements are from the left when `i` elements of the merge have been taken. */
  ghost predicate IsPlan<T>(a: seq<T>, b: seq<T>, xs: seq<int>, merged: seq<T>, le: Order<T>) {
    && |merged| == |a| + |b| && |xs| == |merged| + 1 && xs[0] == 0
    && (forall i {:trigger xs[i]} :: 0 <= i < |xs| ==> 0 <= xs[i] <= |a| && 0 <= i - xs[i] <= |b|)
    && (forall i {:trigger merged[i]} :: 0 <= i < |merged| ==> PlanStep(a, b, i, xs[i], xs[i + 1], merged[i], le))
  }

  ghost predicate PlanStep<T>(a: seq<T>, b: seq<T>, i: int, x: int, next: int, taken: T, le: Order<T>) {
    if LeftIsNext(a, b, x, i - x, le) then 0 <= x < |a| && taken == a[x] && next == x + 1
    else 0 <= i - x < |b| && taken == b[i - x] && next == x
  }

  /** The numbers taken from the left and from the right, `x` and `y` at first, stay in range. */
  ghost predicate PlanInRange(m: nat, n: nat, x: nat, y: nat, xs: seq<int>) {
    forall i {:trigger xs[i]} :: 0 <= i < |xs| ==> x <= xs[i] <= m && y <= x + y + i - xs[i] <= n
  }

  /** `xs` says where each element of `merged` is from, when `base` elements have been taken before. */
  ghost predicate PlanFrom<T>(a: seq<T>, b: seq<T>, base: nat, xs: seq<int>, merged: seq<T>, le: Order<T>) {
    && |xs| == |merged| + 1
    && forall i {:trigger merged[i]} :: 0 <= i < |merged| ==> PlanStep(a, b, base + i, xs[i], xs[i + 1], merged[i], le)
  }

  lemma RangeCons(m: nat, n: nat, x: nat, y: nat, x1: nat, y1: nat, r: seq<int>)
    requires x <= x1 <= m && y <= y1 <= n && x1 + y1 == x + y + 1 && PlanInRange(m, n, x1, y1, r)
    ensures PlanInRange(m, n, x, y, [x] + r)
  {
    forall i | 0 <= i < |r| + 1
      ensures x <= ([x] + r)[i] <= m && y <= x + y + i - ([x] + r)[i] <= n
    {
      if i > 0 { assert ([x] + r)[i] == r[i - 1]; }
    }
  }

  lemma PlanCons<T>(a: seq<T>, b: seq<T>, base: nat, x: int, r: seq<int>, m: seq<T>, n: seq<T>, le: Order<T>)
    requires |m| == |r| >= 1 && m[1..] == n && PlanStep(a, b, base, x, r[0], m[0], le) && PlanFrom(a, b, base + 1, r, n, le)
    ensures PlanFrom(a, b, base, [x] + r, m, le)
  {
    forall i | 0 <= i < |m|
      ensures PlanStep(a, b, base + i, ([x] + r)[i], ([x] + r)[i + 1], m[i], le)
    {
      if i > 0 {
        assert m[i] == m[1..][i - 1] == n[i - 1];
        assert PlanStep(a, b, base + 1 + (i - 1), r[i - 1], r[i], n[i - 1], le);
      }
    }
  }

  /** A plan for merging what is left after `x` and `y` elements, whose result is `merged`. */
  ghost predicate RestPlan<T>(a: seq<T>, b: seq<T>, x: nat, y: nat, xs: seq<int>, merged: seq<T>, le: Order<T>) {
    && |xs| == |merged| + 1 == |a| - x + |b| - y + 1 && xs[0] == x
    && PlanInRange(|a|, |b|, x, y, xs) && PlanFrom(a, b, x + y, xs, merged, le)
  }

  lemma RestCons<T>(a: seq<T>, b: seq<T>, x: nat, y: nat, x1: nat, y1: nat, r: seq<int>, m: seq<T>, n: seq<T>, le: Order<T>)
    requires x <= x1 <= |a| && y <= y1 <= |b| && x1 + y1 == x + y + 1 && RestPlan(a, b, x1, y1, r, n, le)
    requires m != [] && m[1..] == n && PlanStep(a, b, x + y, x, x1, m[0], le)
    ensures RestPlan(a, b, x, y, [x] + r, m, le)
  {
    RangeCons(|a|, |b|, x, y, x1, y1, r);
    PlanCons(a, b, x + y, x, r, m, n, le);
  }

  lemma {:induction false} MergePlan<T>(a: seq<T>, b: seq<T>, x: nat, y: nat, le: Order<T>) returns (xs: seq<int>)
    requires x <= |a| && y <= |b|
    ensures RestPlan(a, b, x, y, xs, Merge(a[x..], b[y..], le), le)
    decreases |a| - x + |b| - y
  {
    var c, d := a[x..], b[y..];
    if x == |a| && y == |b| {
      xs := [x];
    } else if LeftIsNext(a, b, x, y, le) {
      xs := MergePlan(a, b, x + 1, y, le);
      MergeTakesLeft(c, d, le);
      assert c[1..] == a[x + 1..];
      RestCons(a, b, x, y, x + 1, y, xs, Merge(c, d, le), Merge(a[x + 1..], d, le), le);
      xs := [x] + xs;
    } else {
      xs := MergePlan(a, b, x, y + 1, le);
      MergeTakesRight(c, d, le);
      assert d[1..] == b[y + 1..];
      RestCons(a, b, x, y, x, y + 1, xs, Merge(c, d, le), Merge(c, b[y + 1..], le), le);
      xs := [x] + xs;
    }
  }

  /** Every merge follows such a plan. */
  lemma PlanOfMerge<T>(a: seq<T>, b: seq<T>, le: Order<T>) returns (xs: seq<int>)
    ensures IsPlan(a, b, xs, Merge(a, b, le), le)
  {
    xs := MergePlan(a, b, 0, 0, le);
    assert a[0..] == a && b[0..] == b;
  }

  lemma HeadIsLeast<T(!new)>(s: seq<T>, le: Order<T>)
    requires TotalPreorder(le) && Sorted(s, le) && s != []
    ensures forall x :: x in s ==> le(s[0], x)
  {
  }

  lemma ClassCons<T>(x: T, s: seq<T>, le: Order<T>, k: T)
    ensures Class([x] + s, le, k) == if Same(le, x, k) then [x] + Class(s, le, k) else Class(s, le, k)
  {
  }

  lemma {:induction false} MergeClass<T(!new)>(a: seq<T>, b: seq<T>, le: Order<T>, k: T)
    requires TotalPreorder(le) && Sorted(a, le)
    ensures Class(Merge(a, b, le), le, k) == Class(a, le, k) + Class(b, le, k)
    decreases |a| + |b|
  {
    if b != [] && a != [] {
      if le(a[0], b[0]) {
        MergeClass(a[1..], b, le, k);
        ClassTakesLeft(a, b, Merge(a[1..], b, le), le, k);
      } else {
        MergeClass(a, b[1..], le, k);
        AboveClass(a, b[0], le, k);
        ClassTakesRight(a, b, Merge(a, b[1..], le), le, k);
      }
    }
  }

  lemma ClassTakesLeft<T>(a: seq<T>, b: seq<T>, m: seq<T>, le: Order<T>, k: T)
    requires a != [] && Class(m, le, k) == Class(a[1..], le, k) + Class(b, le, k)
    ensures Class([a[0]] + m, le, k) == Class(a, le, k) + Class(b, le, k)
  {
    ClassCons(a[0], m, le, k);
    ClassCons(a[0], a[1..], le, k);
    assert a == [a[0]] + a[1..];
  }

  lemma ClassTakesRight<T>(a: seq<T>, b: seq<T>, m: seq<T>, le: Order<T>, k: T)
    requires b != [] && Class(m, le, k) == Class(a, le, k) + Class(b[1..], le, k)
    requires Same(le, b[0], k) ==> Class(a, le, k) == []
    ensures Class([b[0]] + m, le, k) == Class(a, le, k) + Class(b, le, k)
  {
    ClassCons(b[0], m, le, k);
    ClassCons(b[0], b[1..], le, k);
    assert b == [b[0]] + b[1..];
  }

  /** Nothing that exceeds `x` is in the class of `x`. */
  lemma AboveClass<T(!new)>(s: seq<T>, x: T, le: Order<T>, k: T)
    requires TotalPreorder(le) && Sorted(s, le) && s != [] && !le(s[0], x)
    ensures Same(le, x, k) ==> Class(s, le, k) == []
  {
  }

  lemma {:induction false} MergeMembers<T>(a: seq<T>, b: seq<T>, le: Order<T>)
    ensures forall x :: x in Merge(a, b, le) ==> x in a || x in b
    decreases |a| + |b|
  {
    if b != [] && a != [] {
      if le(a[0], b[0]) { MergeMembers(a[1..], b, le); } else { MergeMembers(a, b[1..], le); }
    }
  }

  lemma {:induction false} MergeSorted<T(!new)>(a: seq<T>, b: seq<T>, le: Order<T>)
    requires TotalPreorder(le) && Sorted(a, le) && Sorted(b, le)
    ensures Sorted(Merge(a, b, le), le)
    decreases |a| + |b|
  {
    if b != [] && a != [] {
      HeadIsLeast(a, le);
      HeadIsLeast(b, le);
      if le(a[0], b[0]) {
        MergeSorted(a[1..], b, le);
        MergeMembers(a[1..], b, le);
        SortedCons(a[0], Merge(a[1..], b, le), le);
      } else {
        MergeSorted(a, b[1..], le);
        MergeMembers(a, b[1..], le);
        SortedCons(b[0], Merge(a, b[1..], le), le);
      }
    }
  }

  /** Merging the sorted halves sorts the whole. */
  lemma MergeOfHalves<T(!new)>(a: seq<T>, b: seq<T>, le: Order<T>)
    requires TotalPreorder(le)
    ensures Merge(StableSorted(a, le), StableSorted(b, le), le) == StableSorted(a + b, le)
  {
    var x, y := StableSorted(a, le), StableSorted(b, le);
    StableSortedMeetsSpec(a, le);
    StableSortedMeetsSpec(b, le);
    MergeSorted(x, y, le);
    forall k
      ensures Class(a + b, le, k) == Class(Merge(x, y, le), le, k)
    {
      MergeClass(x, y, le, k);
      ClassConcat(a, b, le, k);
      assert Class(a, le, k) == Class(x, le, k) && Class(b, le, k) == Class(y, le, k);
    }
    StableSortIsUnique(a + b, Merge(x, y, le), le);
  }

  lemma {:induction false} MergeOfOrdered<T(!new)>(a: seq<T>, b: seq<T>, le: Order<T>)
    requires TotalPreorder(le) && Sorted(a + b, le)
    ensures Merge(a, b, le) == a + b
    decreases |a|
  {
    if b == [] {
      assert a + b == a;
    } else if a == [] {
      assert a + b == b;
    } else {
      assert le((a + b)[0], (a + b)[|a|]);
      assert a + b == [a[0]] + (a[1..] + b);
      TailSorted([a[0]], a[1..] + b, le);
      MergeOfOrdered(a[1..], b, le);
    }
  }

  /** Halves whose border is in order are in order as they stand. */
  lemma OrderedBorder<T(!new)>(a: seq<T>, b: seq<T>, le: Order<T>)
    requires TotalPreorder(le) && Sorted(a, le) && Sorted(b, le) && a != [] && b != [] && le(a[|a| - 1], b[0])
    ensures Sorted(a + b, le)
  {
  }

  // ---------- sorting twice ----------

  /** First by `a`, and by `b` within the classes of `a`. */
  function Lex<T>(a: Order<T>, b: Order<T>): Order<T> {
    (x: T, y: T) => a(x, y) && (a(y, x) ==> b(x, y))
  }

  lemma LexPreorder<T(!new)>(a: Order<T>, b: Order<T>)
    requires TotalPreorder(a) && TotalPreorder(b)
    ensures TotalPreorder(Lex(a, b))
  {
  }

  lemma {:induction false} ClassOfLex<T>(s: seq<T>, a: Order<T>, b: Order<T>, k: T)
    ensures Class(s, Lex(a, b), k) == Class(Class(s, a, k), b, k) == Class(Class(s, b, k), a, k)
  {
    if s != [] {
      ClassOfLex(s[1..], a, b, k);
      var x := s[0];
      var ca, cb := Class(s[1..], a, k), Class(s[1..], b, k);
      assert ([x] + ca)[1..] == ca && ([x] + cb)[1..] == cb;
      assert [] + ca == ca && [] + cb == cb;
      assert Same(Lex(a, b), x, k) <==> Same(a, x, k) && Same(b, x, k);
    }
  }

  lemma {:induction false} ClassSorted<T>(s: seq<T>, a: Order<T>, b: Order<T>, k: T)
    requires Sorted(s, b)
    ensures Sorted(Class(s, a, k), b)
  {
    if s != [] {
      ClassSorted(s[1..], a, b, k);
      forall y | y in Class(s[1..], a, k)
        ensures b(s[0], y)
      {
        ClassMember(s[1..], a, k, y);
      }
      SortedCons(s[0], Class(s[1..], a, k), b);
      assert [] + Class(s[1..], a, k) == Class(s[1..], a, k);
    }
  }

  /** Sorted by `a`, with every class of `a` sorted by `b`. */
  lemma {:induction false} SortedLex<T(!new)>(s: seq<T>, a: Order<T>, b: Order<T>)
    requires TotalPreorder(a) && Sorted(s, a) && forall k :: Sorted(Class(s, a, k), b)
    ensures Sorted(s, Lex(a, b))
  {
    if s != [] {
      var x := s[0];
      forall k
        ensures Sorted(Class(s[1..], a, k), b)
      {
        TailSorted(if Same(a, x, k) then [x] else [], Class(s[1..], a, k), b);
        assert Sorted(Class(s, a, k), b);
      }
      SortedLex(s[1..], a, b);
      forall y | y in s[1..]
        ensures Lex(a, b)(x, y)
      {
        if a(y, x) {
          ClassMember(s[1..], a, x, y);
          assert Sorted(Class(s, a, x), b);
          HeadBelow(x, Class(s[1..], a, x), b, y);
        }
      }
      SortedCons(x, s[1..], Lex(a, b));
      assert s == [x] + s[1..];
    }
  }

  lemma TailSorted<T>(p: seq<T>, s: seq<T>, le: Order<T>)
    ensures Sorted(p + s, le) ==> Sorted(s, le)
  {
    if Sorted(p + s, le) {
      forall i, j | 0 <= i < j < |s|
        ensures le(s[i], s[j])
      {
        assert s[i] == (p + s)[|p| + i] && s[j] == (p + s)[|p| + j];
      }
    }
  }

  lemma HeadBelow<T>(x: T, s: seq<T>, le: Order<T>, y: T)
    requires Sorted([x] + s, le) && y in s
    ensures le(x, y)
  {
    var j :| 0 <= j < |s| && s[j] == y;
    assert ([x] + s)[0] == x && ([x] + s)[j + 1] == y;
  }

  /** Sorting by `b` and then stably by `a` is sorting by `a` first and `b` second. */
  lemma SortTwice<T(!new)>(s: seq<T>, a: Order<T>, b: Order<T>)
    requires TotalPreorder(a) && TotalPreorder(b)
    ensures StableSorted(StableSorted(s, b), a) == StableSorted(s, Lex(a, b))
  {
    var t := StableSorted(s, b);
    var r := StableSorted(t, a);
    StableSortedMeetsSpec(s, b);
    StableSortedMeetsSpec(t, a);
    forall k
      ensures Sorted(Class(r, a, k), b)
      ensures Class(s, Lex(a, b), k) == Class(r, Lex(a, b), k)
    {
      assert Class(s, b, k) == Class(t, b, k) && Class(t, a, k) == Class(r, a, k);
      ClassSorted(t, a, b, k);
      ClassOfLex(s, a, b, k);
      ClassOfLex(t, a, b, k);
      ClassOfLex(r, a, b, k);
    }
    SortedLex(r, a, b);
    LexPreorder(a, b);
    StableSortIsUnique(s, r, Lex(a, b));
  }

  /** Sorting only looks at how the order compares. */
  lemma {:induction false} SameOrderSameSort<T(!new)>(s: seq<T>, a: Order<T>, b: Order<T>)
    requires forall x, y :: a(x, y) == b(x, y)
    ensures StableSorted(s, a) == StableSorted(s, b)
  {
    if s != [] {
      SameOrderSameSort(s[1..], a, b);
      SameOrderSameInsert(s[0], StableSorted(s[1..], a), a, b);
    }
  }

  lemma {:induction false} SameOrderSameInsert<T(!new)>(x: T, s: seq<T>, a: Order<T>, b: Order<T>)
    requires forall x, y :: a(x, y) == b(x, y)
    ensures Insert(x, s, a) == Insert(x, s, b)
  {
    if s != [] && !a(x, s[0]) { SameOrderSameInsert(x, s[1..], a, b); }
  }

  // ---------- sorting through a view ----------

  function View<T, U>(s: seq<T>, f: T -> U): (r: seq<U>)
    ensures |r| == |s| && forall i :: 0 <= i < |s| ==> r[i] == f(s[i])
  {
    seq(|s|, i requires 0 <= i < |s| => f(s[i]))
  }

  /** `f` carries the order `a` on the elements of `s` to the order `b`. */
  ghost predicate Carries<T, U>(s: seq<T>, f: T -> U, a: Order<T>, b: Order<U>) {
    forall x, y :: x in s && y in s ==> (a(x, y) <==> b(f(x), f(y)))
  }

  lemma {:induction false} InsertCommutes<T, U>(x: T, s: seq<T>, f: T -> U, a: Order<T>, b: Order<U>)
    requires Carries([x] + s, f, a, b)
    ensures View(Insert(x, s, a), f) == Insert(f(x), View(s, f), b)
  {
    if s != [] && !a(x, s[0]) {
      assert Carries([x] + s[1..], f, a, b);
      InsertCommutes(x, s[1..], f, a, b);
      assert View(s, f)[1..] == View(s[1..], f);
      assert View([s[0]] + Insert(x, s[1..], a), f) == [f(s[0])] + View(Insert(x, s[1..], a), f);
    } else {
      assert View([x] + s, f) == [f(x)] + View(s, f);
    }
  }

  /** Sorting the elements and then viewing them is viewing them and then sorting. */
  lemma {:induction false} SortCommutes<T(!new), U>(s: seq<T>, f: T -> U, a: Order<T>, b: Order<U>)
    requires TotalPreorder(a) && Carries(s, f, a, b)
    ensures View(StableSorted(s, a), f) == StableSorted(View(s, f), b)
  {
    if s != [] {
      var t := StableSorted(s[1..], a);
      SortCommutes(s[1..], f, a, b);
      assert View(s, f)[1..] == View(s[1..], f);
      StableSortedMeetsSpec(s[1..], a);
      StableSortPermutes(s[1..], t, a);
      forall x | x in [s[0]] + t
        ensures x in s
      {
        assert x in t ==> x in multiset(t);
      }
      assert Carries([s[0]] + t, f, a, b);
      InsertCommutes(s[0], t, f, a, b);
    }
  }
}
