/** Checkpoints of the pooled memory manager: `setStatus` undoes everything since `getStatus`. */
module PoolCheckpoints {
  import opened Basics
  import opened PoolSpec
  import opened PoolSafety

  /** The allocation position is at or past offset `c` of block `i`. */
  ghost predicate AtOrPast(q: Pool, i: nat, c: nat) {
    i <= q.current < |q.blocks| && q.blocks[i].cursor >= c
  }

  /** A session never goes back past it. */
  ghost predicate NeverPast(ps: seq<Pool>, i: nat, c: nat) { forall j :: 0 <= j < |ps| ==> AtOrPast(ps[j], i, c) }

  /** `q` still holds all that was live at the checkpoint, and nothing new below it. */
  ghost predicate Holds(p: Pool, q: Pool)
    requires 0 <= p.current < |p.blocks|
  {
    var i, c := p.current, p.blocks[p.current].cursor;
    && AtOrPast(q, i, c)
    && (forall k :: 0 <= k <= i ==> q.blocks[k].addr == p.blocks[k].addr)
    && (forall r :: r in q.live && Below(r, i, c) <==> r in p.live)
  }

  /** How `alloc` moves on: earlier blocks are kept as they are, and what is new lies past the old position. */
  ghost predicate Onward(p: Pool, q: Pool)
    requires 0 <= p.current < |p.blocks|
  {
    && |p.blocks| <= |q.blocks| && p.current <= q.current < |q.blocks|
    && (forall k :: 0 <= k < |p.blocks| ==> q.blocks[k].addr == p.blocks[k].addr)
    && (forall k :: 0 <= k <= p.current ==> q.blocks[k].cursor >= p.blocks[k].cursor)
    && p.live <= q.live
    && (forall r :: r in q.live && r !in p.live ==> r.len > 0 && !Below(r, p.current, p.blocks[p.current].cursor))
  }

  lemma ExtendGoesOnward(p: Pool, size: nat, m: nat)
    requires 0 <= p.current < |p.blocks|
    ensures Extend(p, size, m).Some? ==> Onward(p, Extend(p, size, m).value)
  {
  }

  lemma BumpGoesOnward(p: Pool, size: nat)
    requires 0 <= p.current < |p.blocks| && size > 0
    ensures Onward(p, Bump(p, size).0)
  {
  }

  lemma OnwardTransitive(p: Pool, q: Pool, t: Pool)
    requires 0 <= p.current < |p.blocks| && Onward(p, q) && Onward(q, t)
    ensures Onward(p, t)
  {
  }

  lemma SecondExtensionGoesOnward(p: Pool, q: Pool, size: nat, m: nat)
    requires 0 <= p.current < |p.blocks| && Onward(p, q) && size > 0
    ensures Onward(p, Bump(q, size).0)
    ensures var t := Extend(q, p.bufferSize, m); t.Some? ==> Onward(p, Bump(t.value, size).0)
  {
    BumpGoesOnward(q, size);
    OnwardTransitive(p, q, Bump(q, size).0);
    ExtendGoesOnward(q, p.bufferSize, m);
    var t := Extend(q, p.bufferSize, m);
    if t.Some? {
      BumpGoesOnward(t.value, size);
      OnwardTransitive(q, t.value, Bump(t.value, size).0);
      OnwardTransitive(p, q, Bump(t.value, size).0);
    }
  }

  lemma AllocGoesOnward(p: Pool, size: nat, m0: nat, m1: nat)
    requires 0 <= p.current < |p.blocks|
    ensures Onward(p, Alloc(p, size, m0, m1).0)
  {
    var s := Align8(size);
    if s > 0 {
      ExtendGoesOnward(p, s + HEADER, m1);
      var q := FirstExtension(p, s, m1);
      if q.Some? { SecondExtensionGoesOnward(p, q.value, s, m1); }
    }
  }

  lemma OnwardHolds(p: Pool, q: Pool, t: Pool)
    requires 0 <= p.current < |p.blocks| && Holds(p, q) && Onward(q, t)
    ensures Holds(p, t)
  {
  }

  lemma RewindHolds(p: Pool, q: Pool, j: nat, cursor: nat)
    requires Valid(p) && p.blocks != [] && Valid(q) && Holds(p, q) && j <= q.current
    requires AtOrPast(Rewind(q, j, cursor), p.current, p.blocks[p.current].cursor)
    ensures Holds(p, Rewind(q, j, cursor))
  {
  }

  /** One operation that does not go back past the checkpoint. */
  lemma ApplyHolds(p: Pool, q: Pool, op: Op)
    requires Valid(p) && p.blocks != [] && Valid(q) && Holds(p, q) && Allowed(q, op)
    requires AtOrPast(Apply(q, op), p.current, p.blocks[p.current].cursor)
    ensures Holds(p, Apply(q, op))
  {
    match op
    case DoAlloc(size, m0, m1) =>
      AllocGoesOnward(q, size, m0, m1);
      OnwardHolds(p, q, Apply(q, op));
    case DoSet(st) =>
      if SetStatus(q, st).1 {
        if st == Status(0, 0) {
          RewindHolds(p, q, 0, HEADER);
        } else {
          RewindHolds(p, q, Find(q.blocks, st.addr, 0, q.current + 1).value, st.cursor);
        }
      }
    case DoClear => RewindHolds(p, q, 0, HEADER);
    case DoFreeUnused =>
  }

  lemma {:induction false} SessionHolds(ps: seq<Pool>, ops: seq<Op>, k: nat)
    requires IsSession(ps, ops) && k < |ps| && ps[0].blocks != []
    requires NeverPast(ps, ps[0].current, ps[0].blocks[ps[0].current].cursor)
    ensures Holds(ps[0], ps[k])
  {
    if k == 0 {
      assert forall r :: r in ps[0].live ==> RegionOk(ps[0], r);
      LiveIsBelow(ps[0]);
    } else {
      SessionHolds(ps, ops, k - 1);
      SessionsStayValid(ps, ops, k - 1);
      assert StepAt(k - 1);
      ApplyHolds(ps[0], ps[k - 1], ops[k - 1]);
    }
  }

  lemma LiveIsBelow(p: Pool)
    requires Valid(p) && p.blocks != []
    ensures forall r :: r in p.live ==> Below(r, p.current, p.blocks[p.current].cursor)
  {
  }

  lemma FindsBlock(q: Pool, i: nat)
    requires Valid(q) && i <= q.current
    ensures Find(q.blocks, q.blocks[i].addr, 0, q.current + 1) == Some(i)
  {
  }

  /**
   Take a checkpoint, do anything that never goes back past it, and return to it: the call
   succeeds, and exactly the pieces live at the checkpoint are live again, at the same position.
   */
  lemma CheckpointRoundTrip(ps: seq<Pool>, ops: seq<Op>)
    requires IsSession(ps, ops) && ps[0].blocks != []
    requires NeverPast(ps, ps[0].current, ps[0].blocks[ps[0].current].cursor)
    ensures var p, q := ps[0], ps[|ps| - 1];
      && q.current < |q.blocks| && SetStatus(q, GetStatus(p)).1
      && var t := SetStatus(q, GetStatus(p)).0;
        && Valid(t) && t.live == p.live && t.current == p.current
        && t.blocks[t.current].addr == p.blocks[p.current].addr && t.blocks[t.current].cursor == p.blocks[p.current].cursor
  {
    var p, q := ps[0], ps[|ps| - 1];
    SessionHolds(ps, ops, |ps| - 1);
    SessionsStayValid(ps, ops, |ps| - 1);
    FindsBlock(q, p.current);
    assert BlockOk(p.blocks[p.current], p.bufferSize);
    SetStatusKeepsValid(q, GetStatus(p));
    assert SetStatus(q, GetStatus(p)).0 == Rewind(q, p.current, p.blocks[p.current].cursor);
  }

  /**
   After the return to a checkpoint, and through any further session that does not go back past it,
   every piece live at the checkpoint stays live, and nothing handed out meanwhile overlaps it.
   */
  lemma RestoredPiecesStaySafe(ps: seq<Pool>, ops: seq<Op>, qs: seq<Pool>, ops2: seq<Op>, j: nat, r: Region, x: Region)
    requires IsSession(ps, ops) && ps[0].blocks != [] && IsSession(qs, ops2)
    requires NeverPast(ps, ps[0].current, ps[0].blocks[ps[0].current].cursor)
    requires NeverPast(qs, ps[0].current, ps[0].blocks[ps[0].current].cursor)
    requires qs[0] == SetStatus(ps[|ps| - 1], GetStatus(ps[0])).0
    requires j < |qs| && r in ps[0].live && x in qs[j].live
    ensures r in qs[j].live && (x != r ==> !Overlap(r, x))
  {
    CheckpointRoundTrip(ps, ops);
    SessionHolds(qs, ops2, j);
    SessionsStayValid(qs, ops2, j);
  }

  // ---------- when pieces are lost ----------

  /** What a caller can tell before: of the operations, only going back takes a piece away, if it is not refused. */
  predicate Spares(p: Pool, op: Op, x: Region)
    requires -1 <= p.current < |p.blocks|
  {
    match op
    case DoAlloc(_, _, _) => true
    case DoFreeUnused => true
    case DoClear => false
    case DoSet(st) =>
      st != Status(0, 0) &&
      var f := Find(p.blocks, st.addr, 0, p.current + 1);
      f.None? || st.cursor % 8 != 0 || st.cursor < HEADER || st.cursor > p.blocks[f.value].cursor || Below(x, f.value, st.cursor)
  }

  /** A live piece survives an operation exactly when its arguments spare it, and when the position is then at or past its end. */
  lemma PieceSurvivesExactly(p: Pool, op: Op, x: Region)
    requires Valid(p) && Allowed(p, op) && x in p.live
    ensures x in Apply(p, op).live <==> Spares(p, op, x)
    ensures x in Apply(p, op).live <==> AtOrPast(Apply(p, op), x.block, x.off + x.len)
  {
    var q := Apply(p, op);
    assert RegionOk(p, x);
    ApplyKeepsValid(p, op);
    if op.DoAlloc? { AllocGoesOnward(p, op.size, op.m0, op.m1); }
    if x in q.live { assert RegionOk(q, x); }
  }

  /** A piece stays live throughout a session exactly when the session never goes back past its end. */
  lemma PieceStaysExactly(ps: seq<Pool>, ops: seq<Op>, x: Region)
    requires IsSession(ps, ops) && x in ps[0].live
    ensures (forall j {:trigger ps[j]} :: 0 <= j < |ps| ==> x in ps[j].live) <==> NeverPast(ps, x.block, x.off + x.len)
  {
    forall j | 0 <= j < |ps| && forall i :: 0 <= i <= j ==> x in ps[i].live
      ensures AtOrPast(ps[j], x.block, x.off + x.len)
    {
      SessionsStayValid(ps, ops, j);
      assert RegionOk(ps[j], x);
    }
    if NeverPast(ps, x.block, x.off + x.len) {
      forall j | 0 <= j < |ps| ensures x in ps[j].live { PieceStays(ps, ops, x, j); }
    }
  }

  lemma {:induction false} PieceStays(ps: seq<Pool>, ops: seq<Op>, x: Region, j: nat)
    requires IsSession(ps, ops) && x in ps[0].live && NeverPast(ps, x.block, x.off + x.len) && j < |ps|
    ensures x in ps[j].live
  {
    if j > 0 {
      PieceStays(ps, ops, x, j - 1);
      SessionsStayValid(ps, ops, j - 1);
      assert StepAt(j - 1);
      PieceSurvivesExactly(ps[j - 1], ops[j - 1], x);
    }
  }

  ghost predicate AllStay(ps: seq<Pool>) {
    ps != [] && forall j, r {:trigger r in ps[j].live} :: 0 <= j < |ps| && r in ps[0].live ==> r in ps[j].live
  }

  /** Taken where a piece ends, a checkpoint keeps all its pieces live throughout a session exactly when the session never goes back past it. */
  lemma CheckpointKeepsExactly(ps: seq<Pool>, ops: seq<Op>, x: Region)
    requires IsSession(ps, ops) && x in ps[0].live && ps[0].blocks != []
    requires x.block == ps[0].current && x.off + x.len == ps[0].blocks[ps[0].current].cursor
    ensures AllStay(ps) <==> NeverPast(ps, ps[0].current, ps[0].blocks[ps[0].current].cursor)
  {
    PieceStaysExactly(ps, ops, x);
    if NeverPast(ps, x.block, x.off + x.len) {
      forall j, r | 0 <= j < |ps| && r in ps[0].live ensures r in ps[j].live { SessionHolds(ps, ops, j); }
    }
  }

  /** Going back past the checkpoint is not noticed: it is accepted afterwards, and cuts through a piece handed out meanwhile. */
  lemma StaleCheckpointIsAccepted(a: nat)
    requires a > 0 && a % 8 == 0
    ensures var p := Alloc(Empty(64), 8, a, 0).0;
      var q := Alloc(Clear(p), 32, 0, 0).0;
      p.current < |p.blocks| && q.current < |q.blocks| && q.live == {Region(0, 32, 32)}
      && SetStatus(q, GetStatus(p)).1 && SetStatus(q, GetStatus(p)).0.live == {}
  {
    var p := Alloc(Empty(64), 8, a, 0).0;
    assert p.blocks == [Block(a, 64, 40)] && p.live == {Region(0, 32, 8)};
    assert Clear(p).blocks == [Block(a, 64, 32)] && Clear(p).live == {};
    var q := Alloc(Clear(p), 32, 0, 0).0;
    assert q.blocks == [Block(a, 64, 64)] && q.live == {Region(0, 32, 32)};
    assert Find(q.blocks, a, 0, 1) == Some(0);
    assert !Below(Region(0, 32, 32), 0, 40);
  }
}
