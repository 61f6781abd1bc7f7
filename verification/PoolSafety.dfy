/**
 What the pooled memory manager guarantees: pieces handed out stay in bounds, aligned and
 apart, an oversized request is safe exactly when the blocks kept for reuse allow it, and going
 back to a checkpoint brings back exactly what was live when it was taken.
 */
module PoolSafety {
  import opened Basics
  import opened PoolSpec

  // ---------- steps keep the invariant ----------

  lemma HeaderKeepsValid(p: Pool, m: nat)
    requires Valid(p) && (m == 0 || Fresh(p, m, SizeUsed(p.bufferSize)))
    ensures Valid(Header(p, m)) && Header(p, m).live == p.live
    ensures Header(p, m).blocks != [] ==> Header(p, m).bufferSize >= HEADER
  {
  }

  lemma ExtendKeepsValid(p: Pool, size: nat, m: nat)
    requires Valid(p) && p.blocks != [] && p.bufferSize <= size
    requires p.current + 1 == |p.blocks| && m != 0 ==> Fresh(p, m, size)
    ensures Extend(p, size, m).Some? ==>
      var q := Extend(p, size, m).value;
      && Valid(q) && q.live == p.live && q.bufferSize == p.bufferSize && q.current == p.current + 1
      && q.blocks[q.current].cursor == HEADER
      && q.blocks[q.current].length == if p.current + 1 < |p.blocks| then p.blocks[p.current + 1].length else size
  {
  }

  /** A new piece starts where the last one ended, so it is none of the live ones. */
  lemma BumpIsNew(p: Pool, size: nat)
    requires Valid(p) && p.blocks != [] && size > 0 && size % 8 == 0
    ensures var r := Region(p.current, p.blocks[p.current].cursor, size);
      r !in p.live && forall x :: x in p.live ==> !Overlap(x, r)
  {
    var r := Region(p.current, p.blocks[p.current].cursor, size);
    forall x | x in p.live ensures x != r && !Overlap(x, r) {
      assert RegionOk(p, x);
    }
  }

  lemma BumpKeepsRegions(p: Pool, size: nat, x: Region)
    requires Valid(p) && p.blocks != [] && size > 0 && size % 8 == 0 && x in Bump(p, size).0.live
    ensures RegionOk(Bump(p, size).0, x)
  {
    assert BlockOk(p.blocks[p.current], p.bufferSize);
    if x in p.live { assert RegionOk(p, x); }
  }

  lemma BumpKeepsValid(p: Pool, size: nat)
    requires Valid(p) && p.blocks != [] && size > 0 && size % 8 == 0
    requires p.blocks[p.current].cursor + size <= p.blocks[p.current].length
    ensures var (q, r) := Bump(p, size); Valid(q) && r.Some? && r.value !in p.live && q.live == p.live + {r.value}
  {
    BumpIsNew(p, size);
    forall x | x in Bump(p, size).0.live ensures RegionOk(Bump(p, size).0, x) {
      BumpKeepsRegions(p, size, x);
    }
  }

  // ---------- when a request is in bounds ----------

  /** Room for `size` bytes behind the header of the kept block at position `i`. */
  predicate KeptRoom(p: Pool, i: nat, size: nat) {
    i < |p.blocks| && HEADER + size <= p.blocks[i].length
  }

  /** A request fits when it is not oversized, when nothing is kept, or when one of the two blocks kept next has room. */
  predicate Roomy(p: Pool, size: nat)
    requires p.current >= 0
  {
    !Oversized(p, size) || p.current + 1 >= |p.blocks|
    || KeptRoom(p, p.current + 1, size) || KeptRoom(p, p.current + 2, size)
  }

  /** What an extension asks `malloc` for, if it asks at all. */
  function Asked(p: Pool, size: nat): nat {
    if Oversized(p, size) && p.current + 1 == |p.blocks| then size + HEADER else p.bufferSize
  }

  ghost predicate MallocOk(p: Pool, size: nat, m: nat) { m == 0 || Fresh(p, m, Asked(p, size)) }

  predicate InBounds(p: Pool, r: Region) {
    r.block < |p.blocks| && r.off + r.len <= p.blocks[r.block].length
  }

  /** A fitting request, by its first extension. */
  lemma PlaceOrdinary(p: Pool, size: nat, m: nat)
    requires Valid(p) && p.blocks != [] && size > 0 && size % 8 == 0 && MallocOk(p, size, m) && !Oversized(p, size)
    ensures var (q, r) := Place(p, size, m);
      Valid(q) && if r.Some? then r.value !in p.live && q.live == p.live + {r.value} && InBounds(q, r.value) else q.live == p.live
  {
    var b := p.blocks[p.current];
    if size > b.length - b.cursor {
      ExtendKeepsValid(p, p.bufferSize, m);
      var t := Extend(p, p.bufferSize, m);
      if t.Some? {
        assert BlockOk(t.value.blocks[t.value.current], p.bufferSize);
        BumpKeepsValid(t.value, size);
      }
    } else {
      BumpKeepsValid(p, size);
    }
  }

  lemma FreshStays(p: Pool, q: Pool, m: nat, size: nat)
    requires Fresh(p, m, size) && |q.blocks| == |p.blocks|
    requires forall i :: 0 <= i < |p.blocks| ==> q.blocks[i].addr == p.blocks[i].addr && q.blocks[i].length == p.blocks[i].length
    ensures Fresh(q, m, size)
  {
  }

  /** The second extension, after a first one to a kept block that is too short. */
  lemma PlaceBeyondShortBlock(p: Pool, q: Pool, size: nat, m: nat)
    requires Valid(p) && Valid(q) && p.current + 1 == q.current < |p.blocks| == |q.blocks| && q.bufferSize == p.bufferSize
    requires forall i :: 0 <= i < |p.blocks| ==> q.blocks[i].addr == p.blocks[i].addr && q.blocks[i].length == p.blocks[i].length
    requires size > 0 && size % 8 == 0 && Oversized(p, size) && (m == 0 || Fresh(p, m, p.bufferSize))
    ensures var t := Extend(q, p.bufferSize, m);
      t.Some? ==> var (u, r) := Bump(t.value, size);
        && (InBounds(u, r.value) <==> KeptRoom(p, p.current + 2, size))
        && (KeptRoom(p, p.current + 2, size) ==> Valid(u) && r.value !in q.live && u.live == q.live + {r.value})
  {
    if q.current + 1 == |q.blocks| && m != 0 { FreshStays(p, q, m, p.bufferSize); }
    ExtendKeepsValid(q, p.bufferSize, m);
    var t := Extend(q, p.bufferSize, m);
    if t.Some? && KeptRoom(p, p.current + 2, size) { BumpKeepsValid(t.value, size); }
  }

  lemma PlaceOversized(p: Pool, size: nat, m: nat)
    requires Valid(p) && p.blocks != [] && size > 0 && size % 8 == 0 && MallocOk(p, size, m) && Oversized(p, size)
    ensures var (q, r) := Place(p, size, m);
      && (r.Some? ==> (InBounds(q, r.value) <==> Roomy(p, size)))
      && (Roomy(p, size) ==> Valid(q) && if r.Some? then r.value !in p.live && q.live == p.live + {r.value} else q.live == p.live)
  {
    ExtendKeepsValid(p, size + HEADER, m);
    var e := Extend(p, size + HEADER, m);
    if e.Some? {
      if size > e.value.blocks[e.value.current].length - HEADER {
        PlaceBeyondShortBlock(p, e.value, size, m);
      } else {
        BumpKeepsValid(e.value, size);
      }
    }
  }

  lemma AlignUp(n: nat)
    ensures n <= Align8(n) < n + 8 && Align8(n) % 8 == 0
  {
  }

  /** `malloc`'s promises over one `alloc`. */
  ghost predicate MallocsOk(p: Pool, size: nat, m0: nat, m1: nat) {
    && (m0 == 0 || Fresh(p, m0, SizeUsed(p.bufferSize)))
    && MallocOk(Header(p, m0), Align8(size), m1)
  }

  /**
   A piece handed out lies in its block exactly when the request fits; it is then new, long enough,
   aligned, and overlaps nothing live, and nothing else changes hands.
   */
  lemma AllocIsSafe(p: Pool, size: nat, m0: nat, m1: nat)
    requires Valid(p) && MallocsOk(p, size, m0, m1)
    ensures var (q, r) := Alloc(p, size, m0, m1); var h := Header(p, m0);
      && (r.Some? ==> h.current >= 0 && size <= r.value.len == Align8(size) && r.value.block == q.current)
      && (r.Some? ==> (InBounds(q, r.value) <==> Roomy(h, Align8(size))))
      && (h.current < 0 || Roomy(h, Align8(size)) ==>
          Valid(q) && if r.Some? then r.value !in p.live && q.live == p.live + {r.value} else q.live == p.live)
  {
    HeaderKeepsValid(p, m0);
    AlignUp(size);
    var h, s := Header(p, m0), Align8(size);
    if h.blocks != [] && s > 0 {
      if Oversized(h, s) {
        PlaceOversized(h, s, m1);
      } else {
        PlaceOrdinary(h, s, m1);
      }
    }
  }

  /** A new pool hands out its first piece in bounds exactly when its block size is the default or at least a header. */
  lemma FirstPieceFitsExactly(bufferSize: nat, size: nat, m0: nat, m1: nat)
    requires MallocsOk(Empty(bufferSize), size, m0, m1)
    ensures var (q, r) := Alloc(Empty(bufferSize), size, m0, m1);
      r.Some? ==> (InBounds(q, r.value) <==> bufferSize == 0 || bufferSize >= HEADER)
  {
    if bufferSize == 0 || bufferSize >= HEADER {
      AllocIsSafe(Empty(bufferSize), size, m0, m1);
    }
  }

  /** How many blocks a request moves on: none if it fits behind the cursor, two past a kept block that is too short for it. */
  function BlocksOn(p: Pool, s: nat): nat
    requires 0 <= p.current < |p.blocks|
  {
    var b := p.blocks[p.current];
    if s + HEADER > p.bufferSize then (if p.current + 1 < |p.blocks| && p.blocks[p.current + 1].length < HEADER + s then 2 else 1)
    else if b.cursor + s <= b.length then 0 else 1
  }

  /** A request succeeds exactly when no block is missing that `malloc` does not give, and then its place is this. */
  lemma PlaceExactly(p: Pool, size: nat, m: nat)
    requires Valid(p) && p.blocks != [] && size > 0 && size % 8 == 0
    ensures var (q, r) := Place(p, size, m); var on := BlocksOn(p, size);
      && (r.Some? <==> on == 0 || p.current + on < |p.blocks| || m != 0)
      && (r.Some? ==> q.current == p.current + on
                      && r.value == Region(p.current + on, if on == 0 then p.blocks[p.current].cursor else HEADER, size)
                      && q.blocks[q.current].cursor == r.value.off + size)
  {
    assert BlockOk(p.blocks[p.current], p.bufferSize);
    if p.current + 1 < |p.blocks| { assert BlockOk(p.blocks[p.current + 1], p.bufferSize); }
  }

  /** So of a pool: the first block is made when there is none, of 65536 bytes by default, and sizes are rounded up to words. */
  lemma AllocExactly(p: Pool, size: nat, m0: nat, m1: nat)
    requires Valid(p) && (m0 == 0 || Fresh(p, m0, SizeUsed(p.bufferSize)))
    ensures var (q, r), h := Alloc(p, size, m0, m1), Header(p, m0); var s := (size + 7) / 8 * 8;
      && h.blocks == (if p.blocks != [] then p.blocks else if m0 == 0 then []
                      else [Block(m0, if p.bufferSize == 0 then 65536 else p.bufferSize, 32)])
      && (r.Some? <==> size > 0 && h.blocks != [] && (BlocksOn(h, s) == 0 || h.current + BlocksOn(h, s) < |h.blocks| || m1 != 0))
      && (r.Some? ==> r.value == Region(h.current + BlocksOn(h, s), if BlocksOn(h, s) == 0 then h.blocks[h.current].cursor else 32, s))
  {
    HeaderKeepsValid(p, m0);
    AlignUp(size);
    var h := Header(p, m0);
    if h.blocks != [] && size > 0 { PlaceExactly(h, Align8(size), m1); }
  }

  /** A position can be gone back to exactly if it is the null one, or aligned, behind the header and not past the cursor of a block in use. */
  lemma SetStatusExactly(p: Pool, st: Status)
    requires Valid(p) && p.blocks != []
    ensures SetStatus(p, st).1 <==> st == Status(0, 0) || exists i :: 0 <= i <= p.current && GoesBackTo(p, st, i)
    ensures forall i :: 0 <= i <= p.current && GoesBackTo(p, st, i) ==>
      var q := SetStatus(p, st).0;
      && q.current == i && q.blocks == p.blocks[i := p.blocks[i].(cursor := st.cursor)]
      && forall r :: r in q.live <==> r in p.live && (r.block < i || (r.block == i && r.off + r.len <= st.cursor))
    ensures Clear(p) == p.(current := 0, blocks := p.blocks[0 := p.blocks[0].(cursor := 32)], live := {})
    ensures st == Status(0, 0) ==> SetStatus(p, st).0 == Clear(p)
  {
    ClearKeepsValid(p);
    var f := Find(p.blocks, st.addr, 0, p.current + 1);
    forall i | 0 <= i <= p.current && GoesBackTo(p, st, i)
      ensures f == Some(i) && st != Status(0, 0)
    {
      assert BlockOk(p.blocks[i], p.bufferSize);
      assert forall k :: 0 <= k < i ==> Apart(p.blocks[k], p.blocks[i]) && BlockOk(p.blocks[k], p.bufferSize);
      assert forall k :: i < k <= p.current ==> Apart(p.blocks[i], p.blocks[k]) && BlockOk(p.blocks[k], p.bufferSize);
    }
  }

  predicate GoesBackTo(p: Pool, st: Status, i: int)
    requires 0 <= i < |p.blocks|
  {
    p.blocks[i].addr == st.addr && st.cursor % 8 == 0 && 32 <= st.cursor <= p.blocks[i].cursor
  }

  lemma ClearKeepsValid(p: Pool)
    requires Valid(p)
    ensures Valid(Clear(p)) && Clear(p).live == {}
  {
  }

  lemma SetStatusKeepsValid(p: Pool, st: Status)
    requires Valid(p)
    ensures Valid(SetStatus(p, st).0) && SetStatus(p, st).0.live <= p.live
    ensures !SetStatus(p, st).1 ==> SetStatus(p, st).0 == p
  {
  }

  lemma FreeUnusedKeepsValid(p: Pool)
    requires Valid(p)
    ensures Valid(FreeUnused(p)) && FreeUnused(p).live == p.live
    ensures |FreeUnused(p).blocks| == p.current + 1 && FreeUnused(p).blocks <= p.blocks && FreeUnused(p).current == p.current
  {
  }

  // ---------- addresses ----------

  function Start(p: Pool, r: Region): nat
    requires r.block < |p.blocks|
  {
    p.blocks[r.block].addr + r.off
  }

  /** In memory, all live pieces are aligned, lie within their blocks behind the header, and are pairwise apart. */
  lemma LivePiecesAreApart(p: Pool, r: Region, q: Region)
    requires Valid(p) && r in p.live && q in p.live
    ensures RegionOk(p, r) && RegionOk(p, q) && InBounds(p, r) && Start(p, r) % 8 == 0
    ensures r != q ==> Start(p, r) + r.len <= Start(p, q) || Start(p, q) + q.len <= Start(p, r)
  {
    assert RegionOk(p, r) && RegionOk(p, q);
    assert BlockOk(p.blocks[r.block], p.bufferSize);
    if r.block < q.block {
      BlocksApart(p, r, q);
    } else if q.block < r.block {
      BlocksApart(p, q, r);
    } else {
      assert r != q ==> !Overlap(r, q);
    }
  }

  lemma BlocksApart(p: Pool, r: Region, q: Region)
    requires Valid(p) && RegionOk(p, r) && RegionOk(p, q) && r.block < q.block
    ensures Start(p, r) + r.len <= Start(p, q) || Start(p, q) + q.len <= Start(p, r)
  {
    assert BlockOk(p.blocks[r.block], p.bufferSize) && BlockOk(p.blocks[q.block], p.bufferSize);
    assert Apart(p.blocks[r.block], p.blocks[q.block]);
  }

  // ---------- whole sessions ----------

  datatype Op = DoAlloc(size: nat, m0: nat, m1: nat) | DoSet(st: Status) | DoClear | DoFreeUnused

  function Apply(p: Pool, op: Op): Pool
    requires p.current < |p.blocks|
  {
    match op
    case DoAlloc(size, m0, m1) => Alloc(p, size, m0, m1).0
    case DoSet(st) => SetStatus(p, st).0
    case DoClear => Clear(p)
    case DoFreeUnused => FreeUnused(p)
  }

  /** An operation as a caller may use it: `malloc` keeps its promises, and the request fits. */
  ghost predicate Allowed(p: Pool, op: Op) {
    op.DoAlloc? ==>
      MallocsOk(p, op.size, op.m0, op.m1)
      && (Header(p, op.m0).current >= 0 ==> Roomy(Header(p, op.m0), Align8(op.size)))
  }

  lemma ApplyKeepsValid(p: Pool, op: Op)
    requires Valid(p) && Allowed(p, op)
    ensures Valid(Apply(p, op))
  {
    match op
    case DoAlloc(size, m0, m1) => AllocIsSafe(p, size, m0, m1);
    case DoSet(st) => SetStatusKeepsValid(p, st);
    case DoClear => ClearKeepsValid(p);
    case DoFreeUnused => FreeUnusedKeepsValid(p);
  }

  /** The pools of a session, from first to last. */
  ghost predicate IsSession(ps: seq<Pool>, ops: seq<Op>) {
    && |ps| == |ops| + 1 && Valid(ps[0])
    && forall i {:trigger StepAt(i)} :: 0 <= i < |ops| && StepAt(i) ==>
      ps[i].current < |ps[i].blocks| && Allowed(ps[i], ops[i]) && ps[i + 1] == Apply(ps[i], ops[i])
  }

  lemma {:induction false} SessionsStayValid(ps: seq<Pool>, ops: seq<Op>, i: nat)
    requires IsSession(ps, ops) && i < |ps|
    ensures Valid(ps[i])
  {
    if i > 0 {
      SessionsStayValid(ps, ops, i - 1);
      assert StepAt(i - 1);
      ApplyKeepsValid(ps[i - 1], ops[i - 1]);
    }
  }

  /** At every moment of a session any two live pieces are aligned, in bounds and apart. */
  lemma SessionsAreSafe(ps: seq<Pool>, ops: seq<Op>, i: nat, r: Region, q: Region)
    requires IsSession(ps, ops) && i < |ps| && r in ps[i].live && q in ps[i].live
    ensures InBounds(ps[i], r) && InBounds(ps[i], q) && Start(ps[i], r) % 8 == 0
    ensures r != q ==> Start(ps[i], r) + r.len <= Start(ps[i], q) || Start(ps[i], q) + q.len <= Start(ps[i], r)
  {
    SessionsStayValid(ps, ops, i);
    LivePiecesAreApart(ps[i], r, q);
    LivePiecesAreApart(ps[i], q, r);
  }

  /** A kept block too short for an oversized request is really met, after a rewind, within three calls. */
  lemma OversizedAfterRewind(a: nat, b: nat, c: nat)
    requires 0 < a && a % 8 == b % 8 == c % 8 == 0 && a + 64 <= b && b + 64 <= c
    ensures var p := Clear(Alloc(Alloc(Empty(64), 32, a, 0).0, 32, 0, b).0);
      var (q, r) := Alloc(p, 40, 0, c);
      Valid(p) && MallocsOk(p, 40, 0, c) && r.Some? && !InBounds(q, r.value)
  {
    var p1 := Alloc(Empty(64), 32, a, 0).0;
    assert Fresh(Empty(64), a, 64);
    AllocIsSafe(Empty(64), 32, a, 0);
    assert p1.blocks == [Block(a, 64, 64)] && p1.current == 0;
    var p2 := Alloc(p1, 32, 0, b).0;
    AllocIsSafe(p1, 32, 0, b);
    assert p2.blocks == [Block(a, 64, 64), Block(b, 64, 64)] && p2.current == 1;
    ClearKeepsValid(p2);
    assert Clear(p2).blocks == [Block(a, 64, 32), Block(b, 64, 64)] && Clear(p2).current == 0;
    AllocIsSafe(Clear(p2), 40, 0, c);
  }
}
