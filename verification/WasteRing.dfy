/**
 Memory waste of the fault-injection library (src/allim/lib/allib.c): a circular doubly linked
 list of chunks that has to agree with a byte counter. One process only, as the list is its own
 while the counter is shared.
 */
module WasteRing {

  const CHUNK_SIZE: int := 0x10_0000
  const NODE_SIZE: int := 16

  /** What one call of the allocator answers. */
  datatype Answer = Allocated | OutOfMemory | OtherError

  // ---------- the counter ----------

  /** Where wasting from `current` towards `dest` ends, by the answers from number `i` on. */
  function Wasted(current: int, dest: int, size: int, i: nat, answers: nat -> Answer): int
    decreases if current < dest then dest - current else 0, size
  {
    if current >= dest || size <= NODE_SIZE then current
    else
      match answers(i)
      case OutOfMemory => Wasted(current, dest, size / 2, i + 1, answers)
      case Allocated => Wasted(current + CHUNK_SIZE, dest, size, i + 1, answers)
      case OtherError => current
  }

  /** Where freeing from `current` towards `dest` ends. */
  function Freed(current: int, dest: int): int
    decreases current - dest
  {
    if current > dest then Freed(current - CHUNK_SIZE, dest) else current
  }

  /** How many chunks freeing takes off. */
  function FreeSteps(current: int, dest: int): nat
    decreases current - dest
  {
    if current > dest then 1 + FreeSteps(current - CHUNK_SIZE, dest) else 0
  }

  /** How often a request can be halved before it is no larger than a node. */
  function Halvings(size: int): nat { if size <= NODE_SIZE then 0 else 1 + Halvings(size / 2) }

  /**
   Wasting ends within one chunk past the target; or it ends earlier, and then one of the answers it
   got, of which at most `Halvings(size)` are refusals that do not stop it, was no allocation.
   */
  lemma {:induction false} WastedReachesTarget(current: int, dest: int, size: int, i: nat, answers: nat -> Answer)
    requires current < dest && size > NODE_SIZE
    ensures var r := Wasted(current, dest, size, i, answers);
      && current <= r < dest + CHUNK_SIZE && (r - current) % CHUNK_SIZE == 0
      && (r >= dest || exists k: nat :: i <= k <= i + (r - current) / CHUNK_SIZE + Halvings(size) && answers(k) != Allocated)
    decreases dest - current, size
  {
    match answers(i) {
      case OutOfMemory =>
        if size / 2 > NODE_SIZE { WastedReachesTarget(current, dest, size / 2, i + 1, answers); }
      case Allocated =>
        if current + CHUNK_SIZE < dest { WastedReachesTarget(current + CHUNK_SIZE, dest, size, i + 1, answers); }
      case OtherError =>
    }
  }

  /** Answers of one kind among the `n` from number `i` on. */
  function Count(answers: nat -> Answer, i: nat, n: nat, kind: Answer): nat {
    if n == 0 then 0 else Count(answers, i, n - 1, kind) + if answers(i + n - 1) == kind then 1 else 0
  }

  lemma {:induction false} CountFromFront(answers: nat -> Answer, i: nat, n: nat, kind: Answer)
    requires n > 0
    ensures Count(answers, i, n, kind) == (if answers(i) == kind then 1 else 0) + Count(answers, i + 1, n - 1, kind)
  {
    if n > 1 { CountFromFront(answers, i, n - 1, kind); }
  }

  /** After `n` calls wasting goes on: the target is not reached, no more refusals came than a request can be halved, and no other error. */
  ghost predicate GoesOn(current: int, dest: int, size: int, i: nat, answers: nat -> Answer, n: nat) {
    && current + Count(answers, i, n, Allocated) * CHUNK_SIZE < dest
    && Count(answers, i, n, OutOfMemory) < Halvings(size)
    && Count(answers, i, n, OtherError) == 0
  }

  /** Wasting calls the allocator as long as it goes on, and counts a chunk for each allocation. */
  lemma {:induction false} WastedExactly(current: int, dest: int, size: int, i: nat, answers: nat -> Answer) returns (n: nat)
    ensures Wasted(current, dest, size, i, answers) == current + Count(answers, i, n, Allocated) * CHUNK_SIZE
    ensures !GoesOn(current, dest, size, i, answers, n) && forall m: nat :: m < n ==> GoesOn(current, dest, size, i, answers, m)
    decreases if current < dest then dest - current else 0, size
  {
    n := 0;
    if current < dest && size > NODE_SIZE {
      var next, left := current, size;
      match answers(i) {
        case OutOfMemory => left := size / 2;
        case Allocated => next := current + CHUNK_SIZE;
        case OtherError =>
      }
      if answers(i) == OtherError {
        n := 1;
      } else {
        n := WastedExactly(next, dest, left, i + 1, answers);
        n := n + 1;
        CountFromFront(answers, i, n, Allocated);
        OneCallMore(current, dest, size, i, answers, n);
        forall m: nat | m < n ensures GoesOn(current, dest, size, i, answers, m) {
          if m > 0 { OneCallMore(current, dest, size, i, answers, m); }
        }
      }
    }
  }

  lemma OneCallMore(current: int, dest: int, size: int, i: nat, answers: nat -> Answer, m: nat)
    requires size > NODE_SIZE && answers(i) != OtherError && m > 0
    ensures var next := if answers(i) == Allocated then current + CHUNK_SIZE else current;
      var left := if answers(i) == OutOfMemory then size / 2 else size;
      GoesOn(current, dest, size, i, answers, m) <==> GoesOn(next, dest, left, i + 1, answers, m - 1)
  {
    CountFromFront(answers, i, m, Allocated);
    CountFromFront(answers, i, m, OutOfMemory);
    CountFromFront(answers, i, m, OtherError);
  }

  /** A chunk's request can be halved sixteen times. */
  lemma SixteenRefusals()
    ensures Halvings(CHUNK_SIZE) == 16
  {
    assert Halvings(0x20) == 1;
    assert Halvings(0x40) == 2;
    assert Halvings(0x80) == 3;
    assert Halvings(0x100) == 4;
    assert Halvings(0x400) == 6;
    assert Halvings(0x1000) == 8;
    assert Halvings(0x4000) == 10;
    assert Halvings(0x1_0000) == 12;
    assert Halvings(0x4_0000) == 14;
  }

  /** Freeing ends within one chunk below the target. */
  lemma {:induction false} FreedReachesTarget(current: int, dest: int)
    requires current > dest
    ensures dest - CHUNK_SIZE < Freed(current, dest) <= dest
    decreases current - dest
  {
    if current - CHUNK_SIZE > dest { FreedReachesTarget(current - CHUNK_SIZE, dest); }
  }

  /** With `n` chunks counted, at least one, freeing takes off no more than there are exactly when the target is not negative. */
  lemma {:induction false} FreeingStaysInListExactly(n: nat, dest: int)
    requires n > 0 && n * CHUNK_SIZE > dest
    ensures FreeSteps(n * CHUNK_SIZE, dest) <= n <==> dest >= 0
  {
    assert n * CHUNK_SIZE - CHUNK_SIZE == (n - 1) * CHUNK_SIZE;
    if n > 1 && (n - 1) * CHUNK_SIZE > dest { FreeingStaysInListExactly(n - 1, dest); }
  }

  // ---------- the ring ----------

  class Chunk {
    var mNext: Chunk?
    var mPrev: Chunk?

    constructor ()
    {
      mNext, mPrev := null, null;
    }
  }

  class Waste {
    var head: Chunk?
    var mMemory: int
    var mDestMemory: int
    ghost var nodes: seq<Chunk>

    function After(i: nat, n: nat): nat { if i + 1 == n then 0 else i + 1 }

    function Before(i: nat, n: nat): nat
      requires n > 0
    {
      if i == 0 then n - 1 else i - 1
    }

    /** From `head` on, following `mNext`, come `nodes`, all different, and back; `mPrev` goes the other way. */
    ghost predicate Ring()
      reads this, nodes
    {
      && (if nodes == [] then head == null else head == nodes[0])
      && (forall i, j :: 0 <= i < j < |nodes| ==> nodes[i] != nodes[j])
      && (forall i {:trigger nodes[i].mNext} :: 0 <= i < |nodes| ==> nodes[i].mNext == nodes[After(i, |nodes|)])
      && (forall i {:trigger nodes[i].mPrev} :: 0 <= i < |nodes| ==> nodes[i].mPrev == nodes[Before(i, |nodes|)])
    }

    ghost predicate Valid()
      reads this, nodes
    {
      Ring() && mMemory == |nodes| * CHUNK_SIZE
    }

    constructor ()
      ensures Valid() && nodes == [] && mMemory == mDestMemory == 0
    {
      head, mMemory, mDestMemory, nodes := null, 0, 0, [];
    }

    /** Splice a new chunk in before the head, which is at the end. */
    method Append(c: Chunk)
      requires Ring() && c !in nodes
      modifies this`head, this`nodes, c, nodes
      ensures Ring() && nodes == old(nodes) + [c]
    {
      if head == null {
        head := c;
        c.mPrev, c.mNext := c, c;
      } else {
        c.mNext := head;
        c.mPrev := head.mPrev;
        head.mPrev.mNext := c;
        head.mPrev := c;
      }
      nodes := nodes + [c];
    }

    /** Take the chunk before the head off; the head itself when it is the only one. */
    method RemoveLast()
      requires Ring() && head != null
      modifies this`head, this`nodes, nodes
      ensures Ring() && nodes == old(nodes)[..|old(nodes)| - 1]
    {
      var last := head.mPrev;
      if last == head {
        head := null;
      } else {
        head.mPrev := last.mPrev;
        last.mPrev.mNext := head;
      }
      nodes := nodes[..|nodes| - 1];
    }

    method WasteMemory(from: int, dest: int, answers: nat -> Answer) returns (after: int)
      requires Ring()
      modifies this`head, this`nodes, nodes
      ensures Ring() && old(nodes) <= nodes && forall k :: 0 <= k < |nodes| ==> nodes[k] in old(nodes) || fresh(nodes[k])
      ensures after == Wasted(from, dest, CHUNK_SIZE, 0, answers)
      ensures after - from == (|nodes| - |old(nodes)|) * CHUNK_SIZE
    {
      var size, current, i := CHUNK_SIZE, from, 0;
      while current < dest && size > NODE_SIZE
        invariant Ring() && old(nodes) <= nodes && forall k :: 0 <= k < |nodes| ==> nodes[k] in old(nodes) || fresh(nodes[k])
        invariant Wasted(current, dest, size, i, answers) == Wasted(from, dest, CHUNK_SIZE, 0, answers)
        invariant current - from == (|nodes| - |old(nodes)|) * CHUNK_SIZE
        decreases if current < dest then dest - current else 0, size
      {
        var answer := answers(i);
        i := i + 1;
        match answer {
          case OutOfMemory =>
            size := size / 2;
          case Allocated =>
            var c := new Chunk();
            Append(c);
            current := current + CHUNK_SIZE;
          case OtherError =>
            break;
        }
      }
      after := current;
    }

    /**
     The caller's counter is that of the list, so the head is there for every chunk to be freed; only
     for a negative target does the loop go on, and `failed` says that it dereferences the null head.
     */
    method FreeMemory(from: int, dest: int) returns (after: int, failed: bool)
      requires Ring() && from == |nodes| * CHUNK_SIZE
      modifies this`head, this`nodes, nodes
      ensures Ring() && nodes <= old(nodes) && (failed <==> dest < 0 && old(head) != null)
      ensures if failed then nodes == [] else after == |nodes| * CHUNK_SIZE == if old(head) == null then 0 else Freed(from, dest)
    {
      var current := from;
      failed := false;
      if head == null {
        current := 0;
      } else {
        while current > dest
          invariant Ring() && nodes <= old(nodes) && current == |nodes| * CHUNK_SIZE && Freed(current, dest) == Freed(from, dest)
          decreases current - dest
        {
          if head == null {
            return current, true;
          }
          RemoveLast();
          current := current - CHUNK_SIZE;
        }
      }
      after := current;
    }

    method SetMemoryWaste(dest: int)
      requires Valid()
      modifies this`mDestMemory
      ensures Valid() && mDestMemory == dest
    {
      mDestMemory := dest;
    }

    /**
     `allimMemory`: go to the target that was set, and make what was reached the target. It fails, with
     neither counter set, exactly for a negative target while chunks are held.
     */
    method Memory(answers: nat -> Answer) returns (failed: bool)
      requires Valid()
      modifies this, nodes
      ensures failed <==> old(mDestMemory) < 0 && old(head) != null
      ensures failed ==> Ring() && nodes == [] && mMemory == old(mMemory) && mDestMemory == old(mDestMemory)
      ensures !failed ==> Valid() && mDestMemory == mMemory >= 0 && (nodes <= old(nodes) || old(nodes) <= nodes)
      ensures !failed ==> mMemory == if old(mMemory) < old(mDestMemory) then Wasted(old(mMemory), old(mDestMemory), CHUNK_SIZE, 0, answers)
                         else if old(head) == null then 0 else Freed(old(mMemory), old(mDestMemory))
    {
      failed := false;
      if mDestMemory != mMemory {
        var reached;
        if mMemory < mDestMemory {
          reached := WasteMemory(mMemory, mDestMemory, answers);
        } else {
          reached, failed := FreeMemory(mMemory, mDestMemory);
          if failed { return; }
        }
        mMemory := reached;
        mDestMemory := reached;
      }
    }
  }
}
