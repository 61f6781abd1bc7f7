/**
 When every thread is still hit at the multiples of its own count although threads leave the
 limit point: exactly while every slot a thread may come to shows that thread's count, and after
 a first leave exactly if the slots from the one given up on show the full count.
 */
module LimitPointLeaving {
  import opened LimitPoint
  import opened LimitPointHits

  // ---------- what the future holds ----------

  predicate LawfulLater(p: Point, steps: seq<Step>, later: seq<Call>, c: Call)
    requires Shaped(p)
  {
    Lawful(p, steps + Passes(later), c)
  }

  /** From here on every pass of every thread is hit exactly at the multiples of the thread's own count. */
  ghost predicate OwnCountsHold(p: Point, steps: seq<Step>)
    requires Shaped(p)
  {
    forall later: seq<Call>, c: Call :: Named(later) && c.thread != 0 ==> LawfulLater(p, steps, later, c)
  }

  // ---------- arriving at a slot ----------

  /** A thread that holds no slot. */
  lemma {:induction false} Stranger(threads: seq<nat>) returns (w: nat)
    ensures w != 0 && forall i :: 0 <= i < |threads| ==> threads[i] < w
  {
    if threads == [] {
      w := 1;
    } else {
      w := Stranger(threads[..|threads| - 1]);
      var last := threads[|threads| - 1];
      w := if last < w then w else last + 1;
    }
  }

  lemma SlotIsFirst(threads: seq<nat>, s: nat, t: nat)
    requires Reaches(threads, s, t) && 0 !in threads[..s] && t != 0
    ensures Slot(threads, t) == s
  {
    forall j | 0 <= j < s ensures threads[j] != t && threads[j] != 0 { InFront(threads, j, s); }
    SlotIs(threads, t, s);
  }

  /** Another thread takes the first free slot by a pass that matches nothing. */
  lemma FillFirst(p: Point, steps: seq<Step>, s: nat, t: nat) returns (c: Call)
    requires Shaped(p) && Specific(p.file, p.id) && t != 0 && Reaches(After(p, steps).threads, s, t) && PlaceOf(p, steps, t) < s
    ensures c.thread != 0
    ensures var more := steps + [Passing(c)];
      && Reaches(After(p, more).threads, s, t) && PlaceOf(p, steps, t) < PlaceOf(p, more, t)
      && After(p, more).hits == After(p, steps).hits && Own(p, more, t) == Own(p, steps, t)
  {
    var threads, z := After(p, steps).threads, PlaceOf(p, steps, t);
    var w := Stranger(threads + [t]);
    SlotReaches(threads, t);
    assert (threads + [t])[|threads|] == t && (threads + [t])[..|threads|] == threads;
    assert forall i :: 0 <= i < |threads| ==> (threads + [t])[i] == threads[i];
    InFront(threads, z, s);
    SlotIsFirst(threads, z, w);
    c := Call(w, "", "");
    OneMore(p, steps, Passing(c));
    PassChanges(p, steps, c);
    var after := threads[z := w];
    assert t !in after[..s] by {
      forall j | 0 <= j < s ensures after[..s][j] != t {
        assert threads[..s][j] == threads[j];
      }
    }
    SlotReaches(after, t);
    if Slot(after, t) <= z {
      if Slot(after, t) < z { InFront(threads, Slot(after, t), z); }
    }
  }

  function Again(c: Call, m: nat): seq<Call> { if m == 0 then [] else Again(c, m - 1) + [c] }

  /** The same as steps. */
  function Onward(steps: seq<Step>, c: Call, m: nat): seq<Step> {
    if m == 0 then steps else Onward(steps, c, m - 1) + [Passing(c)]
  }

  lemma PassesAgain(steps: seq<Step>, c: Call, m: nat)
    requires m > 0
    ensures steps + Passes(Again(c, m)) == steps + Passes(Again(c, m - 1)) + [Passing(c)]
  {
    assert Again(c, m)[..|Again(c, m)| - 1] == Again(c, m - 1);
    PassesLast(steps, Again(c, m));
  }

  lemma {:induction false} OnwardIsPasses(steps: seq<Step>, c: Call, m: nat)
    requires c.thread != 0
    ensures Onward(steps, c, m) == steps + Passes(Again(c, m)) && Named(Again(c, m))
  {
    if m == 0 {
      assert steps + Passes(Again(c, 0)) == steps;
    } else {
      OnwardIsPasses(steps, c, m - 1);
      PassesAgain(steps, c, m);
    }
  }

  lemma OnceMore(p: Point, steps: seq<Step>, more: seq<Step>, c: Call, m: nat)
    requires Shaped(p) && Specific(p.file, p.id) && c.thread != 0 && Matching(p, c) && PlaceOf(p, steps, c.thread) < MAX_THREADS
    requires GoneOn(p, steps, more, c.thread, m)
    ensures GoneOn(p, steps, more + [Passing(c)], c.thread, m + 1)
  {
    OnePass(p, more, c);
  }

  /** `m` matching passes of one thread all go to its slot. */
  lemma {:induction false} RepeatedPasses(p: Point, steps: seq<Step>, c: Call, m: nat)
    requires Shaped(p) && Specific(p.file, p.id) && c.thread != 0 && Matching(p, c) && PlaceOf(p, steps, c.thread) < MAX_THREADS
    ensures GoneOn(p, steps, Onward(steps, c, m), c.thread, m)
  {
    if m > 0 {
      RepeatedPasses(p, steps, c, m - 1);
      OnceMore(p, steps, Onward(steps, c, m - 1), c, m - 1);
    }
  }

  /** `m` more passes of thread `t`, all at the same slot. */
  ghost predicate GoneOn(p: Point, steps: seq<Step>, more: seq<Step>, t: nat, m: nat)
    requires Shaped(p)
  {
    var i := PlaceOf(p, steps, t);
    PlaceOf(p, more, t) == i && AtSlot(p, more, i) == AtSlot(p, steps, i) + m && Own(p, more, t) == Own(p, steps, t) + m
  }

  lemma OnePass(p: Point, steps: seq<Step>, c: Call)
    requires Shaped(p) && Specific(p.file, p.id) && c.thread != 0 && Matching(p, c) && PlaceOf(p, steps, c.thread) < MAX_THREADS
    ensures var more := steps + [Passing(c)]; var i := PlaceOf(p, steps, c.thread);
      && PlaceOf(p, more, c.thread) == i
      && AtSlot(p, more, i) == AtSlot(p, steps, i) + 1 && Own(p, more, c.thread) == Own(p, steps, c.thread) + 1
  {
    OneMore(p, steps, Passing(c));
    PassChanges(p, steps, c);
    StaysFirst(After(p, steps).threads, c.thread);
  }

  lemma StaysFirst(threads: seq<nat>, t: nat)
    requires Slot(threads, t) < |threads| && t != 0
    ensures Slot(threads[Slot(threads, t) := t], t) == Slot(threads, t)
  {
    var i := Slot(threads, t);
    SlotReaches(threads, t);
    assert threads[i := t][..i] == threads[..i];
    SlotIsFirst(threads[i := t], i, t);
  }

  // ---------- the law holds exactly while the slots agree ----------

  lemma EqualRemainders(a: nat, b: nat, m: nat, n: nat)
    requires n > 0 && (a + m) % n == 0 && (b + m) % n == 0
    ensures a % n == b % n
  {
    var x, y := (a + m) / n, (b + m) / n;
    assert a + m == n * x && b + m == n * y;
    var q, r := a / n, a % n;
    assert b == a + n * (y - x) by { assert n * (y - x) == n * y - n * x; }
    assert b == n * (q + y - x) + r by { assert n * (q + y - x) == n * q + n * (y - x); }
    SameQuotient(n, q + y - x, r, b / n, b % n);
  }

  lemma ShownByRemainder(k: int32, a: nat, b: nat)
    requires a % Period(k) == b % Period(k)
    ensures Shown(k, a) == Shown(k, b)
  {
    ShownByPhase(k, a);
    ShownByPhase(k, b);
    PhaseIsRemainder(a, Period(k));
    PhaseIsRemainder(b, Period(k));
  }

  /** A name without a slash, once anything has been counted. */
  lemma {:induction false} CountedNamesAreBare(p: Point, steps: seq<Step>, i: nat, t: nat)
    requires Shaped(p) && (AtSlot(p, steps, i) > 0 || Own(p, steps, t) > 0)
    ensures Base(p.file) == p.file
  {
    var front, last := steps[..|steps| - 1], steps[|steps| - 1];
    if last.Passing? && Matching(p, last.call) {
      BaseIsLastPart(last.call.file);
      BaseIsLastPart(p.file);
    } else {
      CountedNamesAreBare(p, front, i, t);
    }
  }

  /** A thread at a slot that shows another count than its own misses a hit within one period. */
  lemma MissesAtSlot(p: Point, steps: seq<Step>, t: nat) returns (later: seq<Call>, c: Call)
    requires JustSet(p) && t != 0 && PlaceOf(p, steps, t) < MAX_THREADS
    requires After(p, steps).hits[PlaceOf(p, steps, t)] != Shown(p.count, Own(p, steps, t))
    ensures Named(later) && c.thread != 0 && !LawfulLater(p, steps, later, c)
  {
    var i := PlaceOf(p, steps, t);
    SlotsShowCounts(p, steps, i);
    if Own(p, steps, t) > 0 || AtSlot(p, steps, i) > 0 { CountedNamesAreBare(p, steps, i, t); }
    c := Call(t, p.file, p.id);
    later := MissesAfter(p, steps, c, AtSlot(p, steps, i));
  }

  lemma MissesAfter(p: Point, steps: seq<Step>, c: Call, made: nat) returns (later: seq<Call>)
    requires JustSet(p) && c.thread != 0 && Matching(p, c) && PlaceOf(p, steps, c.thread) < MAX_THREADS
    requires made == AtSlot(p, steps, PlaceOf(p, steps, c.thread)) && Shown(p.count, Own(p, steps, c.thread)) != Shown(p.count, made)
    ensures Named(later) && !LawfulLater(p, steps, later, c)
  {
    var m := OutOfStep(p.count, Own(p, steps, c.thread), made);
    later := Again(c, m - 1);
    RepeatedPasses(p, steps, c, m - 1);
    StillUnlawful(p, steps, Onward(steps, c, m - 1), c, m);
    OnwardIsPasses(steps, c, m - 1);
  }

  lemma StillUnlawful(p: Point, steps: seq<Step>, more: seq<Step>, c: Call, m: nat)
    requires JustSet(p) && c.thread != 0 && Matching(p, c) && PlaceOf(p, steps, c.thread) < MAX_THREADS
    requires m > 0 && GoneOn(p, steps, more, c.thread, m - 1)
    requires (Own(p, steps, c.thread) + m) % Period(p.count) == 0
    requires (AtSlot(p, steps, PlaceOf(p, steps, c.thread)) + m) % Period(p.count) != 0
    ensures !Lawful(p, more, c)
  {
    assert Own(p, more, c.thread) + 1 == Own(p, steps, c.thread) + m;
    NotLawful(p, more, c);
  }

  lemma NotLawful(p: Point, steps: seq<Step>, c: Call)
    requires JustSet(p) && c.thread != 0 && Matching(p, c) && PlaceOf(p, steps, c.thread) < MAX_THREADS
    requires (Own(p, steps, c.thread) + 1) % Period(p.count) == 0
    requires (AtSlot(p, steps, PlaceOf(p, steps, c.thread)) + 1) % Period(p.count) != 0
    ensures !Lawful(p, steps, c)
  {
    SlotsShowCounts(p, steps, PlaceOf(p, steps, c.thread));
    NextHits(p, steps, c, AtSlot(p, steps, PlaceOf(p, steps, c.thread)));
  }

  /** Two counts that show differently reach a multiple of the period at different times. */
  lemma OutOfStep(k: int32, own: nat, made: nat) returns (m: nat)
    requires Shown(k, own) != Shown(k, made)
    ensures m > 0 && (own + m) % Period(k) == 0 && (made + m) % Period(k) != 0
  {
    var n := Period(k);
    m := n - own % n;
    FullTurn(own, n);
    if (made + m) % n == 0 {
      EqualRemainders(own, made, m, n);
      ShownByRemainder(k, own, made);
    }
  }

  lemma FullTurn(own: nat, n: nat)
    requires n > 0
    ensures (own + (n - own % n)) % n == 0
  {
    assert own + (n - own % n) == n * (own / n + 1) by { assert n * (own / n + 1) == n * (own / n) + n; }
    var x := own / n + 1;
    SameQuotient(n, x, 0, n * x / n, n * x % n);
  }

  lemma {:induction false} PassesFirst(c: Call, later: seq<Call>)
    ensures Passes([c] + later) == [Passing(c)] + Passes(later)
    decreases later
  {
    var all := [c] + later;
    if later == [] {
      assert all[..0] == [];
    } else {
      PassesFirst(c, later[..|later| - 1]);
      assert all[..|all| - 1] == [c] + later[..|later| - 1];
    }
  }

  lemma PassesOn(steps: seq<Step>, c: Call, later: seq<Call>)
    ensures steps + Passes([c] + later) == steps + [Passing(c)] + Passes(later)
  {
    PassesFirst(c, later);
  }

  /** Wherever a slot within reach of a thread shows another count than the thread's own, some later pass is not as it should be. */
  lemma {:induction false} Misses(p: Point, steps: seq<Step>, s: nat, t: nat) returns (later: seq<Call>, c: Call)
    requires JustSet(p) && t != 0 && Reaches(After(p, steps).threads, s, t)
    requires After(p, steps).hits[s] != Shown(p.count, Own(p, steps, t))
    ensures Named(later) && c.thread != 0 && !LawfulLater(p, steps, later, c)
    decreases s - PlaceOf(p, steps, t)
  {
    var threads := After(p, steps).threads;
    SlotReaches(threads, t);
    SlotStops(threads, t, s);
    if PlaceOf(p, steps, t) == s {
      later, c := MissesAtSlot(p, steps, t);
    } else {
      var first := FillFirst(p, steps, s, t);
      later, c := Misses(p, steps + [Passing(first)], s, t);
      PassesOn(steps, first, later);
      later := [first] + later;
    }
  }

  lemma {:induction false} SlotStops(threads: seq<nat>, t: nat, s: nat)
    requires s < |threads| && (threads[s] == t || threads[s] == 0)
    ensures Slot(threads, t) <= s
  {
    if s > 0 && threads[0] != t && threads[0] != 0 { SlotStops(threads[1..], t, s - 1); }
  }

  /** After any passes and leaves, all later passes are right exactly if every slot a thread may come to shows that thread's count. */
  lemma OwnCountsHoldExactly(p: Point, steps: seq<Step>)
    requires JustSet(p)
    ensures OwnCountsHold(p, steps) <==> Agree(p, steps)
  {
    if Agree(p, steps) {
      forall later: seq<Call>, c: Call | Named(later) && c.thread != 0 ensures LawfulLater(p, steps, later, c) {
        PassesKeepAgreement(p, steps, later);
        AgreeIsLawful(p, steps + Passes(later), c);
      }
    } else {
      var s: nat, t: nat :| !AgreesAt(p, steps, s, t);
      var later, c := Misses(p, steps, s, t);
      assert !LawfulLater(p, steps, later, c);
    }
  }

  // ---------- one leave ----------

  /** While no thread leaves, a slot that has counted is held, and not free or held twice up to it. */
  ghost predicate CountedAreHeld(p: Point, steps: seq<Step>)
    requires Shaped(p)
  {
    var threads := After(p, steps).threads;
    forall s {:trigger threads[s]} :: 0 <= s < MAX_THREADS && AtSlot(p, steps, s) > 0 ==>
      threads[s] != 0 && threads[s] !in threads[..s] && 0 !in threads[..s]
  }

  lemma PassKeepsHeld(threads: seq<nat>, i: nat, u: nat, s: nat)
    requires Reaches(threads, i, u) && 0 !in threads[..i] && u != 0 && s < |threads|
    requires s == i || (threads[s] != 0 && threads[s] !in threads[..s] && 0 !in threads[..s])
    ensures var after := threads[i := u]; after[s] != 0 && after[s] !in after[..s] && 0 !in after[..s]
  {
    var after := threads[i := u];
    if s <= i {
      assert after[..s] == threads[..s];
      forall j | 0 <= j < s ensures threads[j] != u && threads[j] != 0 { InFront(threads, j, i); }
    } else {
      InFront(threads, i, s);
      assert after == threads;
    }
  }

  lemma {:induction false} PassesKeepHeld(p: Point, calls: seq<Call>)
    requires JustSet(p) && Named(calls)
    ensures CountedAreHeld(p, Passes(calls))
  {
    if calls != [] {
      var front, last := calls[..|calls| - 1], calls[|calls| - 1];
      var i, threads := PlaceOf(p, Passes(front), last.thread), After(p, Passes(front)).threads;
      PassesKeepHeld(p, front);
      OneMore(p, Passes(front), Passing(last));
      PassChanges(p, Passes(front), last);
      SlotReaches(threads, last.thread);
      var after := After(p, Passes(calls)).threads;
      forall s | 0 <= s < MAX_THREADS && AtSlot(p, Passes(calls), s) > 0
        ensures after[s] != 0 && after[s] !in after[..s] && 0 !in after[..s]
      {
        if i < MAX_THREADS { PassKeepsHeld(threads, i, last.thread, s); }
      }
    }
  }

  /** While no thread leaves, one that holds no slot has counted nothing. */
  lemma {:induction false} StrangersHaveNoCount(p: Point, calls: seq<Call>, u: nat)
    requires JustSet(p) && Named(calls) && u != 0 && u !in After(p, Passes(calls)).threads
    ensures Own(p, Passes(calls), u) == 0
  {
    if calls != [] {
      var front, last := calls[..|calls| - 1], calls[|calls| - 1];
      var i, threads := PlaceOf(p, Passes(front), last.thread), After(p, Passes(front)).threads;
      OneMore(p, Passes(front), Passing(last));
      PassChanges(p, Passes(front), last);
      SlotReaches(threads, last.thread);
      if i < MAX_THREADS {
        assert threads[i := last.thread][i] == last.thread;
        forall j | 0 <= j < |threads| ensures threads[j] != u {
          assert threads[i := last.thread][j] != u;
        }
      }
      StrangersHaveNoCount(p, front, u);
    }
  }

  /** Every slot from the thread's own on shows the full count; a thread without a slot gives nothing up. */
  predicate FullFrom(q: Point, t: nat)
    requires Shaped(q)
  {
    t in q.threads ==> forall s :: Slot(q.threads, t) <= s < MAX_THREADS ==> q.hits[s] == q.count
  }

  /** What a leave does: it frees the thread's slot, and touches no count. */
  lemma LeaveChanges(p: Point, steps: seq<Step>, t: nat)
    requires Shaped(p) && t != 0
    ensures t in After(p, steps).threads ==> PlaceOf(p, steps, t) < MAX_THREADS
    ensures var q, q' := After(p, steps), After(p, steps + [Leaving(t)]);
      && q'.threads == (if t in q.threads then q.threads[Slot(q.threads, t) := 0] else q.threads)
      && q'.hits == q.hits && forall u :: Own(p, steps + [Leaving(t)], u) == Own(p, steps, u)
  {
    var threads := After(p, steps).threads;
    OneMore(p, steps, Leaving(t));
    SlotReaches(threads, t);
    if t in threads {
      var k :| 0 <= k < |threads| && threads[k] == t;
      SlotStops(threads, t, k);
    } else if Slot(threads, t) < MAX_THREADS {
      assert threads[Slot(threads, t)] != t;
      assert threads[Slot(threads, t) := 0] == threads;
    }
  }

  /** What a slot shows when no thread has left: the count of the thread it belongs to, or the full count. */
  lemma ShownAt(p: Point, calls: seq<Call>, s: nat)
    requires JustSet(p) && Named(calls) && s < MAX_THREADS
    ensures var q := After(p, Passes(calls)); var u := q.threads[s];
      q.hits[s] == p.count ||
      (u != 0 && u !in q.threads[..s] && 0 !in q.threads[..s] && q.hits[s] == Shown(p.count, Own(p, Passes(calls), u)))
  {
    var q := After(p, Passes(calls));
    SlotsShowCounts(p, Passes(calls), s);
    PassesKeepHeld(p, calls);
    AgreeFromFirst(p, calls);
    assert AgreesAt(p, Passes(calls), s, q.threads[s]);
  }

  lemma AgreeFromFirst(p: Point, calls: seq<Call>)
    requires JustSet(p) && Named(calls)
    ensures Agree(p, Passes(calls))
  {
    AgreeAtFirst(p);
    PassesKeepAgreement(p, [], calls);
    assert [] + Passes(calls) == Passes(calls);
  }

  /** If every thread is still right after the leave, the slots from the one given up on show the full count. */
  lemma FullIfAgree(p: Point, calls: seq<Call>, t: nat, s: nat)
    requires JustSet(p) && Named(calls) && t != 0 && Agree(p, Passes(calls) + [Leaving(t)])
    requires t in After(p, Passes(calls)).threads && PlaceOf(p, Passes(calls), t) <= s < MAX_THREADS
    ensures After(p, Passes(calls)).hits[s] == p.count
  {
    var steps, threads := Passes(calls), After(p, Passes(calls)).threads;
    var i, left := PlaceOf(p, steps, t), steps + [Leaving(t)];
    LeaveChanges(p, steps, t);
    assert threads[i := 0][..i] == threads[..i];
    var w := Stranger(threads);
    StrangersHaveNoCount(p, calls, w);
    assert AgreesAt(p, left, i, w);
    ShownAt(p, calls, s);
    var u := threads[s];
    if i < s && u !in threads[..s] {
      forall j | 0 <= j < i ensures threads[j] != u { InFront(threads, j, s); }
      assert AgreesAt(p, left, i, u);
    }
  }

  /** If they show it, every thread is right after the leave. */
  lemma AgreeIfFull(p: Point, calls: seq<Call>, t: nat, s: nat, u: nat)
    requires JustSet(p) && Named(calls) && t != 0 && t in After(p, Passes(calls)).threads && FullFrom(After(p, Passes(calls)), t)
    ensures AgreesAt(p, Passes(calls) + [Leaving(t)], s, u)
  {
    var steps, threads := Passes(calls), After(p, Passes(calls)).threads;
    LeaveChanges(p, steps, t);
    var i := PlaceOf(p, steps, t);
    var after := threads[i := 0];
    AgreeFromFirst(p, calls);
    if u != 0 && Reaches(after, s, u) {
      if s < i || u !in threads {
        if s < i {
          assert after[..s] == threads[..s];
          assert AgreesAt(p, steps, s, u);
        } else {
          StrangersHaveNoCount(p, calls, u);
        }
      } else {
        var k := FirstOf(threads, u);
        assert AgreesAt(p, steps, k, u);
        if k < i { InFront(after, k, s); }
      }
    }
  }

  lemma {:induction false} FirstOf(threads: seq<nat>, u: nat) returns (k: nat)
    requires u in threads
    ensures k < |threads| && threads[k] == u && u !in threads[..k]
  {
    if threads[0] == u {
      k := 0;
    } else {
      assert threads == [threads[0]] + threads[1..];
      k := FirstOf(threads[1..], u);
      k := k + 1;
      assert threads[..k] == [threads[0]] + threads[1..][..k - 1];
    }
  }

  /**
   Over passes of any threads, a first leave does no harm to any later count, of the threads that stay, of
   newcomers or of the one that left, exactly when every slot from the one given up on shows the full count.
   */
  lemma LeavingIsHarmlessExactly(p: Point, file: string, id: string, k: int32, errNo: int32, calls: seq<Call>, t: nat)
    requires Shaped(p) && Specific(file, id) && Named(calls) && t != 0
    ensures var p0 := Set(p, file, id, k, errNo);
      OwnCountsHold(p0, Passes(calls) + [Leaving(t)]) <==> FullFrom(After(p0, Passes(calls)), t)
  {
    var p0 := Set(p, file, id, k, errNo);
    SettingIsFresh(p, file, id, k, errNo);
    LeaveAgreesExactly(p0, calls, t);
    OwnCountsHoldExactly(p0, Passes(calls) + [Leaving(t)]);
  }

  lemma LeaveAgreesExactly(p: Point, calls: seq<Call>, t: nat)
    requires JustSet(p) && Named(calls) && t != 0
    ensures Agree(p, Passes(calls) + [Leaving(t)]) <==> FullFrom(After(p, Passes(calls)), t)
  {
    var q, left := After(p, Passes(calls)), Passes(calls) + [Leaving(t)];
    if t !in q.threads {
      LeaveChanges(p, Passes(calls), t);
      AgreeFromFirst(p, calls);
      forall s: nat, u: nat ensures AgreesAt(p, left, s, u) { assert AgreesAt(p, Passes(calls), s, u); }
    } else {
      if Agree(p, left) {
        forall s | Slot(q.threads, t) <= s < MAX_THREADS ensures q.hits[s] == q.count { FullIfAgree(p, calls, t, s); }
      }
      if FullFrom(q, t) {
        forall s: nat, u: nat ensures AgreesAt(p, left, s, u) { AgreeIfFull(p, calls, t, s, u); }
      }
    }
  }

  // ---------- an inherited countdown ----------

  /**
   A leave that keeps the slots a prefix can be harmful all the same: with a count of 2, thread 1 passes once and
   leaves, and thread 2, which takes the slot with its countdown, is hit at its first pass.
   */
  lemma CountdownIsInherited(p: Point)
    requires Shaped(p) && Held(p.threads, 0)
    ensures var p0 := Set(p, "a.c", "P", 2, 7); var steps := [Passing(Call(1, "a.c", "P")), Leaving(1)];
      && Held(After(p0, steps).threads, 0) && !FullFrom(After(p0, steps[..1]), 1)
      && Next(p0, steps, Call(2, "a.c", "P")) == Passed(true, 7)
  {
    var p0, pass := Set(p, "a.c", "P", 2, 7), Passing(Call(1, "a.c", "P"));
    assert [pass] == [] + [pass] && [pass, Leaving(1)] == [pass] + [Leaving(1)] && [pass, Leaving(1)][..1] == [pass];
    OneMore(p0, [], pass);
    OneMore(p0, [pass], Leaving(1));
    assert Base("a.c") == "a.c";
    SlotIs(p0.threads, 1, 0);
    var p1 := After(p0, [pass]);
    assert p1.threads == p0.threads[0 := 1] && p1.hits == p0.hits[0 := 1];
    SlotIs(p1.threads, 1, 0);
    assert p1.threads[0] == 1 && p1.hits[0] == 1;
    assert After(p0, [pass, Leaving(1)]).threads == p1.threads[0 := 0] == p0.threads;
    SlotIs(p0.threads, 2, 0);
  }
}
