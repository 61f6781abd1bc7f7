/**
 Which passes are hit after a specific limit point has been set, over any interleaving of the
 passes of any number of threads: by slot when threads may leave, and by thread while none has.
 */
module LimitPointHits {
  import opened LimitPoint

  datatype Call = Call(thread: nat, file: string, id: string)

  datatype Step = Passing(call: Call) | Leaving(thread: nat)

  predicate Matching(p: Point, c: Call) { p.file == Base(c.file) && p.id == c.id }

  predicate Specific(file: string, id: string) {
    file != "" && file != EVERYWHERE && id != "" && id != EVERYWHERE
  }

  predicate SameSetting(p: Point, q: Point) {
    Shaped(q) && q.file == p.file && q.id == p.id && q.count == p.count && q.errNo == p.errNo
  }

  /** A specific point that has just been set. */
  ghost predicate JustSet(p: Point) {
    Shaped(p) && Specific(p.file, p.id) && forall i {:trigger p.hits[i]} :: 0 <= i < MAX_THREADS ==> p.hits[i] == p.count
  }

  function Made(p: Point, s: Step): Point
    requires Shaped(p)
  {
    if s.Passing? then Pass(p, s.call.thread, s.call.file, s.call.id).0 else Done(p, s.thread).0
  }

  /** The point after a series of steps. */
  function After(p: Point, steps: seq<Step>): (q: Point)
    requires Shaped(p)
    ensures SameSetting(p, q)
  {
    if steps == [] then p else Made(After(p, steps[..|steps| - 1]), steps[|steps| - 1])
  }

  /** Where a thread's next pass goes, and whether it counts there. */
  function PlaceOf(p: Point, steps: seq<Step>, t: nat): nat
    requires Shaped(p)
  {
    Slot(After(p, steps).threads, t)
  }

  predicate CountsAt(p: Point, steps: seq<Step>, s: Step, i: nat)
    requires Shaped(p)
  {
    s.Passing? && Matching(p, s.call) && PlaceOf(p, steps, s.call.thread) == i
  }

  /** The matching passes made at slot `i`, by whichever thread. */
  function AtSlot(p: Point, steps: seq<Step>, i: nat): nat
    requires Shaped(p)
  {
    if steps == [] then 0 else
      var front, last := steps[..|steps| - 1], steps[|steps| - 1];
      AtSlot(p, front, i) + if CountsAt(p, front, last, i) then 1 else 0
  }

  predicate CountsFor(p: Point, steps: seq<Step>, s: Step, t: nat)
    requires Shaped(p)
  {
    s.Passing? && s.call.thread == t && Matching(p, s.call) && PlaceOf(p, steps, t) < MAX_THREADS
  }

  /** The matching passes that thread `t` made, not counting those refused for want of space. */
  function Own(p: Point, steps: seq<Step>, t: nat): nat
    requires Shaped(p)
  {
    if steps == [] then 0 else
      var front, last := steps[..|steps| - 1], steps[|steps| - 1];
      Own(p, front, t) + if CountsFor(p, front, last, t) then 1 else 0
  }

  /** What the next pass returns. */
  function Next(p: Point, steps: seq<Step>, c: Call): Outcome
    requires Shaped(p)
  {
    Pass(After(p, steps), c.thread, c.file, c.id).1
  }

  lemma OneMore(p: Point, steps: seq<Step>, s: Step)
    requires Shaped(p)
    ensures After(p, steps + [s]) == Made(After(p, steps), s)
    ensures forall i :: AtSlot(p, steps + [s], i) == AtSlot(p, steps, i) + if CountsAt(p, steps, s, i) then 1 else 0
    ensures forall t :: Own(p, steps + [s], t) == Own(p, steps, t) + if CountsFor(p, steps, s, t) then 1 else 0
  {
    assert (steps + [s])[..|steps|] == steps;
  }

  /** Over any passes and leaves, a point set for everywhere hits every pass that finds a slot. */
  lemma EverywhereHitsAlways(p: Point, steps: seq<Step>, c: Call)
    requires Shaped(p) && Everywhere(p, c.file)
    ensures Next(p, steps, c) == if PlaceOf(p, steps, c.thread) < MAX_THREADS then Passed(true, p.errNo) else NoSpace
  {
    EverywhereHits(After(p, steps), c.thread, c.file, c.id);
  }

  // ---------- the countdown ----------

  /** Where in a cycle of length `n` the count `c` stands. */
  function Phase(c: nat, n: nat): nat {
    if c == 0 then 0 else
      var before := Phase(c - 1, n);
      if before + 1 == n then 0 else before + 1
  }

  lemma {:induction false} PhaseIsRemainder(c: nat, n: nat)
    requires n > 0
    ensures Phase(c, n) == c % n
  {
    if c > 0 {
      PhaseIsRemainder(c - 1, n);
      NextPhase(c - 1, n, Phase(c - 1, n));
    }
  }

  lemma NextPhase(c: nat, n: nat, before: nat)
    requires n > 0 && before == c % n
    ensures (if before + 1 == n then 0 else before + 1) == (c + 1) % n
  {
    NextRemainder(c, n);
  }

  lemma NextRemainder(c: nat, n: nat)
    requires n > 0
    ensures (c + 1) % n == if c % n + 1 == n then 0 else c % n + 1
  {
    var q, r := c / n, c % n;
    var d, e := (c + 1) / n, (c + 1) % n;
    assert n * q + r + 1 == n * d + e;
    if r + 1 == n {
      assert n * (q + 1) == n * q + n;
      SameQuotient(n, q + 1, 0, d, e);
    } else {
      SameQuotient(n, q, r + 1, d, e);
    }
  }

  lemma SameQuotient(n: nat, q: int, r: nat, d: int, e: nat)
    requires r < n && e < n && n * q + r == n * d + e
    ensures q == d && r == e
  {
    if q < d {
      Multiples(n, q + 1, d);
    } else if d < q {
      Multiples(n, d + 1, q);
    }
  }

  lemma Multiples(n: nat, a: int, b: int)
    requires a <= b
    ensures n * (a - 1) + n <= n * b
  {
    assert n * (b - a) >= 0;
  }

  /** What a slot shows after `c` matching passes of its thread. */
  function Shown(k: int32, c: nat): int32 {
    if c == 0 then k else Reload(k, Decrement(Shown(k, c - 1)))
  }

  function Reload(k: int32, left: int32): int32 { if left == 0 then k else left }

  lemma {:induction false} ShownByPhase(k: int32, c: nat)
    ensures var r := Phase(c, Period(k)); r < Period(k) && Shown(k, c) == if k - r >= -0x8000_0000 then k - r else k - r + TWO_32
  {
    if c > 0 { ShownByPhase(k, c - 1); }
  }

  /** One more decrement reaches 0 exactly when the period divides the number of matching passes. */
  lemma CountdownStep(k: int32, c: nat)
    ensures Decrement(Shown(k, c)) == 0 <==> (c + 1) % Period(k) == 0
  {
    ShownByPhase(k, c);
    ShownByPhase(k, c + 1);
    PhaseIsRemainder(c + 1, Period(k));
  }

  /** What a pass does to the arrays. */
  lemma PassChanges(p: Point, steps: seq<Step>, c: Call)
    requires Shaped(p) && Specific(p.file, p.id)
    ensures var i, q, q' := PlaceOf(p, steps, c.thread), After(p, steps), Made(After(p, steps), Passing(c));
      if i < MAX_THREADS then
        q'.threads == q.threads[i := c.thread]
        && q'.hits == if Matching(p, c) then q.hits[i := Reload(p.count, Decrement(q.hits[i]))] else q.hits
      else q' == q
  {
  }

  // ---------- by slot ----------

  /** Every slot shows the number of matching passes made at it. */
  lemma {:induction false} SlotsShowCounts(p: Point, steps: seq<Step>, i: nat)
    requires JustSet(p) && i < MAX_THREADS
    ensures After(p, steps).hits[i] == Shown(p.count, AtSlot(p, steps, i))
  {
    if steps != [] {
      var front, last := steps[..|steps| - 1], steps[|steps| - 1];
      SlotsShowCounts(p, front, i);
      if last.Passing? { PassChanges(p, front, last.call); }
    }
  }

  /** The outcome of the next pass, from what its slot shows. */
  predicate HitsAfter(p: Point, steps: seq<Step>, c: Call, made: nat)
    requires Shaped(p)
  {
    var out := Next(p, steps, c);
    out.Passed? ==>
      (out.hit <==> Matching(p, c) && (made + 1) % Period(p.count) == 0) && out.errNo == if out.hit then p.errNo else 0
  }

  lemma NextHits(p: Point, steps: seq<Step>, c: Call, made: nat)
    requires Shaped(p) && Specific(p.file, p.id)
    requires PlaceOf(p, steps, c.thread) < MAX_THREADS ==>
      After(p, steps).hits[PlaceOf(p, steps, c.thread)] == Shown(p.count, made)
    ensures HitsAfter(p, steps, c, made)
  {
    CountdownStep(p.count, made);
  }

  lemma SettingIsFresh(p: Point, file: string, id: string, k: int32, errNo: int32)
    requires Shaped(p) && Specific(file, id)
    ensures JustSet(Set(p, file, id, k, errNo))
  {
  }

  /**
   After a specific point has been set with count `k`, over any passes and leaves of any threads, a
   pass is hit, with the point's error number, exactly when it matches and the period of `k` (which is
   `k` itself when positive) divides the number of matching passes made at its slot so far.
   */
  lemma HitsBySlot(p: Point, file: string, id: string, k: int32, errNo: int32, steps: seq<Step>, c: Call)
    requires Shaped(p) && Specific(file, id)
    ensures var p0 := Set(p, file, id, k, errNo);
      HitsAfter(p0, steps, c, AtSlot(p0, steps, PlaceOf(p0, steps, c.thread)))
  {
    var p0 := Set(p, file, id, k, errNo);
    SettingIsFresh(p, file, id, k, errNo);
    var i := PlaceOf(p0, steps, c.thread);
    if i < MAX_THREADS { SlotsShowCounts(p0, steps, i); }
    NextHits(p0, steps, c, AtSlot(p0, steps, i));
  }

  // ---------- by thread ----------

  /** Thread `t` may come to slot `s`: it is its own or free, and `t` holds none before it. */
  predicate Reaches(threads: seq<nat>, s: nat, t: nat) {
    s < |threads| && (threads[s] == t || threads[s] == 0) && t !in threads[..s]
  }

  lemma {:induction false} SlotReaches(threads: seq<nat>, t: nat)
    ensures var i := Slot(threads, t);
      if i < |threads| then Reaches(threads, i, t) && (t != 0 ==> 0 !in threads[..i]) else t !in threads && 0 !in threads
  {
    if threads != [] && threads[0] != t && threads[0] != 0 {
      var i := Slot(threads[1..], t);
      SlotReaches(threads[1..], t);
      assert threads == [threads[0]] + threads[1..];
      if i < |threads[1..]| { assert threads[..i + 1] == [threads[0]] + threads[1..][..i]; }
    }
  }

  predicate AgreesAt(p: Point, steps: seq<Step>, s: nat, t: nat)
    requires Shaped(p)
  {
    var q := After(p, steps);
    t != 0 && Reaches(q.threads, s, t) ==> q.hits[s] == Shown(p.count, Own(p, steps, t))
  }

  /** Every slot that a thread may come to shows the thread's own count. */
  ghost predicate Agree(p: Point, steps: seq<Step>)
    requires Shaped(p)
  {
    forall s: nat, t: nat :: AgreesAt(p, steps, s, t)
  }

  /** The next pass is hit exactly at the multiples of the thread's own count. */
  predicate Lawful(p: Point, steps: seq<Step>, c: Call)
    requires Shaped(p)
  {
    HitsAfter(p, steps, c, Own(p, steps, c.thread))
  }

  lemma AgreeIsLawful(p: Point, steps: seq<Step>, c: Call)
    requires Shaped(p) && Specific(p.file, p.id) && Agree(p, steps) && c.thread != 0
    ensures Lawful(p, steps, c)
  {
    SlotReaches(After(p, steps).threads, c.thread);
    assert AgreesAt(p, steps, PlaceOf(p, steps, c.thread), c.thread);
    NextHits(p, steps, c, Own(p, steps, c.thread));
  }

  lemma ReachesBefore(threads: seq<nat>, i: nat, u: nat, s: nat, t: nat)
    requires Reaches(threads, i, u) && t != u && Reaches(threads[i := u], s, t) && t != 0 && u != 0
    ensures s != i && Reaches(threads, s, t)
  {
    forall j | 0 <= j < s ensures threads[j] != t {
      assert threads[i := u][..s][j] == threads[i := u][j];
      assert t !in threads[i := u][..s];
    }
  }

  lemma InFront(threads: seq<nat>, i: nat, s: nat)
    requires i < s <= |threads|
    ensures threads[i] in threads[..s]
  {
    assert threads[..s][i] == threads[i];
  }

  lemma ReachesOwn(threads: seq<nat>, i: nat, u: nat, s: nat)
    requires Reaches(threads, i, u) && Reaches(threads[i := u], s, u) && u != 0 && 0 !in threads[..i]
    ensures s == i
  {
    if s < i {
      InFront(threads, s, i);
    } else if i < s {
      InFront(threads[i := u], i, s);
    }
  }

  lemma PassKeepsPair(p: Point, steps: seq<Step>, c: Call, s: nat, t: nat)
    requires Shaped(p) && Specific(p.file, p.id) && c.thread != 0 && PlaceOf(p, steps, c.thread) < MAX_THREADS
    requires AgreesAt(p, steps, s, t) && AgreesAt(p, steps, PlaceOf(p, steps, c.thread), c.thread)
    ensures AgreesAt(p, steps + [Passing(c)], s, t)
  {
    var more, i, u := steps + [Passing(c)], PlaceOf(p, steps, c.thread), c.thread;
    var threads := After(p, steps).threads;
    OneMore(p, steps, Passing(c));
    PassChanges(p, steps, c);
    SlotReaches(threads, u);
    if t != 0 && Reaches(After(p, more).threads, s, t) {
      if t == u {
        ReachesOwn(threads, i, u, s);
      } else {
        ReachesBefore(threads, i, u, s, t);
      }
    }
  }

  /** A pass keeps every count right. */
  lemma PassKeepsAgreement(p: Point, steps: seq<Step>, c: Call)
    requires Shaped(p) && Specific(p.file, p.id) && Agree(p, steps) && c.thread != 0
    ensures Agree(p, steps + [Passing(c)])
  {
    var i := PlaceOf(p, steps, c.thread);
    forall s: nat, t: nat
      ensures AgreesAt(p, steps + [Passing(c)], s, t)
    {
      assert AgreesAt(p, steps, s, t) && AgreesAt(p, steps, i, c.thread);
      if i < MAX_THREADS {
        PassKeepsPair(p, steps, c, s, t);
      } else {
        OneMore(p, steps, Passing(c));
        PassChanges(p, steps, c);
      }
    }
  }

  function Passes(calls: seq<Call>): seq<Step> {
    if calls == [] then [] else Passes(calls[..|calls| - 1]) + [Passing(calls[|calls| - 1])]
  }

  lemma PassesLast(steps: seq<Step>, calls: seq<Call>)
    requires calls != []
    ensures steps + Passes(calls) == steps + Passes(calls[..|calls| - 1]) + [Passing(calls[|calls| - 1])]
  {
    var front, last := Passes(calls[..|calls| - 1]), [Passing(calls[|calls| - 1])];
    Joined(steps, front, last);
  }

  lemma Joined(a: seq<Step>, b: seq<Step>, c: seq<Step>)
    ensures a + (b + c) == a + b + c
  {
  }

  ghost predicate Named(calls: seq<Call>) { forall i :: 0 <= i < |calls| ==> calls[i].thread != 0 }

  lemma {:induction false} PassesKeepAgreement(p: Point, steps: seq<Step>, later: seq<Call>)
    requires Shaped(p) && Specific(p.file, p.id) && Agree(p, steps) && Named(later)
    ensures Agree(p, steps + Passes(later))
  {
    if later == [] {
      assert steps + Passes(later) == steps;
    } else {
      PassesKeepAgreement(p, steps, later[..|later| - 1]);
      PassesLast(steps, later);
      OnePassKeepsAgreement(p, steps + Passes(later[..|later| - 1]), later[|later| - 1], steps + Passes(later));
    }
  }

  lemma OnePassKeepsAgreement(p: Point, steps: seq<Step>, c: Call, more: seq<Step>)
    requires Shaped(p) && Specific(p.file, p.id) && Agree(p, steps) && c.thread != 0 && more == steps + [Passing(c)]
    ensures Agree(p, more)
  {
    PassKeepsAgreement(p, steps, c);
  }

  lemma AgreeAtFirst(p: Point)
    requires JustSet(p)
    ensures Agree(p, [])
  {
  }

  // ---------- while no thread leaves ----------

  /** How many of the calls are matching passes of thread `t`. */
  function Count(file: string, id: string, calls: seq<Call>, t: nat): nat {
    if calls == [] then 0 else
      var last := calls[|calls| - 1];
      Count(file, id, calls[..|calls| - 1], t) + if last.thread == t && Base(last.file) == file && last.id == id then 1 else 0
  }

  /** While no thread leaves, one that finds a slot has always found one. */
  lemma PassFreesNothing(threads: seq<nat>, u: nat, t: nat)
    requires Slot(threads, u) < |threads| && t != 0 && u != 0 && Slot(threads[Slot(threads, u) := u], t) < |threads|
    ensures Slot(threads, t) < |threads|
  {
    var i := Slot(threads, u);
    SlotReaches(threads, u);
    SlotReaches(threads, t);
    assert threads[i] in threads;
    assert threads[i] == u ==> threads[i := u] == threads;
  }

  lemma {:induction false} OwnIsCount(p: Point, calls: seq<Call>, t: nat)
    requires Shaped(p) && Specific(p.file, p.id) && Named(calls) && t != 0 && PlaceOf(p, Passes(calls), t) < MAX_THREADS
    ensures Own(p, Passes(calls), t) == Count(p.file, p.id, calls, t)
  {
    if calls != [] {
      var front, last := calls[..|calls| - 1], calls[|calls| - 1];
      OneMore(p, Passes(front), Passing(last));
      PassChanges(p, Passes(front), last);
      if PlaceOf(p, Passes(front), last.thread) < MAX_THREADS {
        PassFreesNothing(After(p, Passes(front)).threads, last.thread, t);
      }
      OwnIsCount(p, front, t);
    }
  }

  /** The slots stay a prefix without duplicates if they were one. */
  lemma {:induction false} PassesKeepPrefix(p: Point, n: nat, calls: seq<Call>) returns (m: nat)
    requires Shaped(p) && Held(p.threads, n) && Named(calls)
    ensures Held(After(p, Passes(calls)).threads, m)
  {
    m := n;
    if calls != [] {
      var front, last := calls[..|calls| - 1], calls[|calls| - 1];
      m := PassesKeepPrefix(p, n, front);
      OneMore(p, Passes(front), Passing(last));
      PassKeepsPrefix(After(p, Passes(front)), m, last.thread, last.file, last.id);
      var q := Pass(After(p, Passes(front)), last.thread, last.file, last.id);
      m := if last.thread in After(p, Passes(front)).threads[..m] || q.1.NoSpace? then m else m + 1;
    }
  }

  lemma PassesAreLawful(p: Point, calls: seq<Call>, c: Call)
    requires JustSet(p) && Named(calls) && c.thread != 0
    ensures var out, before := Next(p, Passes(calls), c), After(p, Passes(calls)).threads;
      && (out.NoSpace? <==> c.thread !in before && 0 !in before)
      && HitsAfter(p, Passes(calls), c, Count(p.file, p.id, calls, c.thread))
  {
    var before := After(p, Passes(calls)).threads;
    AgreeAtFirst(p);
    PassesKeepAgreement(p, [], calls);
    assert [] + Passes(calls) == Passes(calls);
    AgreeIsLawful(p, Passes(calls), c);
    SlotReaches(before, c.thread);
    if Slot(before, c.thread) < MAX_THREADS {
      OwnIsCount(p, calls, c.thread);
      assert before[Slot(before, c.thread)] in before;
    }
  }

  /**
   While no thread leaves, the n-th matching pass of each thread is hit, with the point's error
   number, exactly when the period divides n; no other pass is hit; and a pass fails for want of
   space exactly when every slot is held by another thread.
   */
  lemma HitsExactly(p: Point, slots: nat, file: string, id: string, k: int32, errNo: int32, calls: seq<Call>, j: nat)
    requires Shaped(p) && Specific(file, id) && j < |calls| && Named(calls)
    ensures var p0 := Set(p, file, id, k, errNo); var out := Next(p0, Passes(calls[..j]), calls[j]);
      var t := calls[j].thread; var before := After(p0, Passes(calls[..j])).threads;
      var n := Count(file, id, calls[..j + 1], t);
      && (out.NoSpace? <==> t !in before && 0 !in before)
      && (out.Passed? ==> (out.hit <==> Matching(p0, calls[j]) && n % Period(k) == 0))
      && (out.Passed? ==> out.errNo == if out.hit then errNo else 0)
      && (Held(p.threads, slots) ==> exists m :: Held(before, m))
  {
    var p0 := Set(p, file, id, k, errNo);
    SettingIsFresh(p, file, id, k, errNo);
    PassesAreLawful(p0, calls[..j], calls[j]);
    assert calls[..j + 1][..j] == calls[..j];
    if Held(p.threads, slots) { var m := PassesKeepPrefix(p0, slots, calls[..j]); }
  }
}
