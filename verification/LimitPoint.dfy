/**
 The limit point of the fault-injection library (src/allim/lib/allib.c): one shared point, and
 for each thread that passes it a slot with a countdown. Every operation runs under the lock.
 */
module LimitPoint {

  const MAX_THREADS: nat := 256
  const EVERYWHERE: string := "EVERYWHERE"

  const TWO_32: int := 0x1_0000_0000

  type int32 = x: int | -0x8000_0000 <= x < 0x8000_0000

  /** Thread 0 marks a free slot. */
  datatype Point = Point(file: string, id: string, count: int32, errNo: int32, threads: seq<nat>, hits: seq<int32>)

  datatype Outcome = NoSpace | Passed(hit: bool, errNo: int32)

  predicate Shaped(p: Point) { |p.threads| == |p.hits| == MAX_THREADS }

  // ---------- 32-bit countdown ----------

  /** `acpAtomicDec32`, which wraps around below the smallest number. */
  function Decrement(h: int32): int32 { if h == -0x8000_0000 then 0x7fff_ffff else h - 1 }

  /** After how many decrements a countdown from `k` is 0 again; from 0 or below it wraps around first. */
  function Period(k: int32): nat { if k >= 1 then k else TWO_32 + k }

  // ---------- file names ----------

  /** What follows the last slash. */
  function Base(file: string): string {
    if file == "" then "" else if '/' in file[1..] then Base(file[1..]) else if file[0] == '/' then file[1..] else file
  }

  lemma {:induction false} BaseIsLastPart(file: string)
    ensures '/' !in Base(file) && |Base(file)| <= |file| && file[|file| - |Base(file)|..] == Base(file)
    ensures if '/' in file then |Base(file)| < |file| && file[|file| - |Base(file)| - 1] == '/' else Base(file) == file
  {
    if file != "" {
      assert file == [file[0]] + file[1..];
      if '/' in file[1..] {
        BaseIsLastPart(file[1..]);
        var n := |file| - |Base(file)|;
        assert file[n..] == file[1..][n - 1..];
      }
    }
  }

  // ---------- operations ----------

  /** The slot of a thread: its own, or the first free one, or past the end. */
  function Slot(threads: seq<nat>, t: nat): (i: nat)
    ensures i <= |threads|
  {
    if threads == [] || threads[0] == t || threads[0] == 0 then 0 else 1 + Slot(threads[1..], t)
  }

  /** `allimPointSet`: an empty name leaves the old one; every slot starts to count anew. */
  function Set(p: Point, file: string, id: string, count: int32, errNo: int32): Point {
    Point(if |file| > 0 then file else p.file, if |id| > 0 then id else p.id, count, errNo,
          p.threads, seq(MAX_THREADS, _ => count))
  }

  function Clear(p: Point): Point { p.(file := "", id := "", count := 0, errNo := 0) }

  predicate Matches(p: Point, file: string, id: string) { p.file == Base(file) && p.id == id }

  /** `allimPointPass`. */
  function Pass(p: Point, t: nat, file: string, id: string): (Point, Outcome)
    requires Shaped(p)
  {
    var i := Slot(p.threads, t);
    if i == MAX_THREADS then (p, NoSpace)
    else
      var q := p.(threads := p.threads[i := t]);
      if p.file == EVERYWHERE then (q, Passed(true, p.errNo))
      else if p.file == Base(file) && p.id == EVERYWHERE then (q, Passed(true, p.errNo))
      else if !Matches(p, file, id) then (q, Passed(false, 0))
      else
        var left := Decrement(p.hits[i]);
        if left == 0 then (q.(hits := p.hits[i := p.count]), Passed(true, p.errNo))
        else (q.(hits := p.hits[i := left]), Passed(false, 0))
  }

  /** `allimPointDone`. */
  function Done(p: Point, t: nat): (Point, bool)
    requires Shaped(p)
  {
    var i := Slot(p.threads, t);
    if i == MAX_THREADS then (p, false) else (p.(threads := p.threads[i := 0]), true)
  }

  /** A point that every pass matches, in every file, or in every place of one file. */
  predicate Everywhere(p: Point, file: string) { p.file == EVERYWHERE || (p.file == Base(file) && p.id == EVERYWHERE) }

  /** There every pass that finds a slot is hit, and no countdown moves. */
  lemma EverywhereHits(p: Point, t: nat, file: string, id: string)
    requires Shaped(p) && Everywhere(p, file)
    ensures var (q, out) := Pass(p, t, file, id);
      && out == (if Slot(p.threads, t) < MAX_THREADS then Passed(true, p.errNo) else NoSpace)
      && q.hits == p.hits && q == p.(threads := q.threads)
  {
  }

  /** Elsewhere a pass is hit exactly when both names match and the countdown of its slot comes to 0, which starts it anew. */
  lemma SpecificHitsExactly(p: Point, t: nat, file: string, id: string)
    requires Shaped(p) && !Everywhere(p, file) && Slot(p.threads, t) < MAX_THREADS
    ensures var (q, out) := Pass(p, t, file, id); var i := Slot(p.threads, t);
      var here := p.file == Base(file) && p.id == id;
      && (out == Passed(true, p.errNo) || out == Passed(false, 0)) && (out.hit <==> here && p.hits[i] == 1)
      && q.hits[i] == (if !here then p.hits[i] else if p.hits[i] == 1 then p.count else Decrement(p.hits[i]))
      && (forall j :: 0 <= j < MAX_THREADS && j != i ==> q.hits[j] == p.hits[j])
      && q == p.(threads := p.threads[i := t], hits := q.hits)
  {
  }

  /** After a clear no pass with a place of its own is hit, whatever the countdowns. */
  lemma ClearedIsQuiet(p: Point, t: nat, file: string, id: string)
    requires Shaped(p) && id != ""
    ensures var (q, out) := Pass(Clear(p), t, file, id); (out == NoSpace || out == Passed(false, 0)) && q.hits == p.hits
  {
  }

  /** A set with empty names keeps the old ones; otherwise it takes the new ones, and every slot counts from the start. */
  lemma SetMeans(p: Point, file: string, id: string, count: int32, errNo: int32)
    requires Shaped(p)
    ensures var q := Set(p, file, id, count, errNo);
      && Shaped(q) && q.threads == p.threads && q.count == count && q.errNo == errNo
      && (file == "" ==> q.file == p.file) && (file != "" ==> q.file == file)
      && (id == "" ==> q.id == p.id) && (id != "" ==> q.id == id)
      && forall i :: 0 <= i < MAX_THREADS ==> q.hits[i] == count
  {
  }

  // ---------- slots ----------

  /** The first `n` slots hold different threads, the others none. */
  ghost predicate Held(threads: seq<nat>, n: nat) {
    && n <= |threads|
    && (forall i :: 0 <= i < n ==> threads[i] != 0)
    && (forall i, j :: 0 <= i < j < n ==> threads[i] != threads[j])
    && (forall i :: n <= i < |threads| ==> threads[i] == 0)
  }

  lemma {:induction false} SlotIs(threads: seq<nat>, t: nat, i: nat)
    requires i <= |threads| && (i < |threads| ==> threads[i] == t || threads[i] == 0)
    requires forall j :: 0 <= j < i ==> threads[j] != t && threads[j] != 0
    ensures Slot(threads, t) == i
  {
    if i > 0 { SlotIs(threads[1..], t, i - 1); }
  }

  /** While the slots are held as a prefix, a thread finds its own slot, or else the first free one. */
  lemma SlotInPrefix(threads: seq<nat>, n: nat, t: nat)
    requires Held(threads, n) && t != 0
    ensures var i := Slot(threads, t);
      if t in threads[..n] then i < n && threads[i] == t else i == n
  {
    if t in threads[..n] {
      var k :| 0 <= k < n && threads[k] == t;
      SlotIs(threads, t, k);
    } else {
      forall j | 0 <= j < n ensures threads[j] != t { assert threads[j] in threads[..n]; }
      SlotIs(threads, t, n);
    }
  }

  /** A pass keeps the slots a prefix without duplicates, and reports no space exactly when all are held by others. */
  lemma PassKeepsPrefix(p: Point, n: nat, t: nat, file: string, id: string)
    requires Shaped(p) && Held(p.threads, n) && t != 0
    ensures var (q, out) := Pass(p, t, file, id);
      && (out.NoSpace? <==> n == MAX_THREADS && t !in p.threads[..n])
      && (out.NoSpace? ==> q == p)
      && Shaped(q) && Held(q.threads, if t in p.threads[..n] || out.NoSpace? then n else n + 1)
      && (out.Passed? ==> q.threads == p.threads[Slot(p.threads, t) := t] && t in q.threads)
  {
    SlotInPrefix(p.threads, n, t);
    var i := Slot(p.threads, t);
    if i < MAX_THREADS {
      assert p.threads[i := t][i] == t;
      if t !in p.threads[..n] {
        forall j | 0 <= j < n ensures p.threads[j] != t { assert p.threads[j] in p.threads[..n]; }
      }
    }
  }

  /** Leaving keeps the slots a prefix exactly when the thread holds none, or the last one held. */
  lemma DoneKeepsPrefixExactly(p: Point, n: nat, t: nat)
    requires Shaped(p) && Held(p.threads, n) && t != 0
    ensures (exists m :: Held(Done(p, t).0.threads, m)) <==> (t in p.threads[..n] ==> p.threads[n - 1] == t)
  {
    SlotInPrefix(p.threads, n, t);
    var i, q := Slot(p.threads, t), Done(p, t).0;
    if t !in p.threads[..n] {
      assert q.threads == p.threads;
      assert Held(q.threads, n);
    } else if i == n - 1 {
      assert Held(q.threads, n - 1);
    } else {
      forall m ensures !Held(q.threads, m) {
        assert q.threads[i] == 0 && q.threads[n - 1] != 0;
      }
    }
  }

  /**
   The hole that leaving can make is harmful: with a count of 2, thread 1 registers, thread 2 passes once, thread 1
   leaves, and thread 2, taking a second slot with thread 1's count, is not hit at its second pass.
   */
  lemma LeavingBreaksTheCount(p: Point)
    requires Shaped(p) && Held(p.threads, 0)
    ensures var p1 := Pass(Set(p, "a.c", "P", 2, 7), 1, "b.c", "P").0;
      Shaped(p1) && var p2 := Pass(p1, 2, "a.c", "P").0;
      Shaped(p2) && var p3 := Done(p2, 1).0;
      Shaped(p3) && Pass(p1, 2, "a.c", "P").1 == Pass(p3, 2, "a.c", "P").1 == Passed(false, 0)
      && Pass(p3, 2, "a.c", "P").0.threads[..3] == [2, 2, 0]
  {
    var p0 := Set(p, "a.c", "P", 2, 7);
    SlotIs(p0.threads, 1, 0);
    var p1 := Pass(p0, 1, "b.c", "P").0;
    assert Base("a.c") == "a.c" && Base("b.c") == "b.c";
    assert p1.threads == p0.threads[0 := 1] && p1.hits == p0.hits;
    SlotIs(p1.threads, 2, 1);
    var p2 := Pass(p1, 2, "a.c", "P").0;
    assert p2.threads == p1.threads[1 := 2] && p2.hits == p1.hits[1 := 1];
    SlotIs(p2.threads, 1, 0);
    var p3 := Done(p2, 1).0;
    SlotIs(p3.threads, 2, 0);
  }
}
