/** The pooled memory manager as the object it is (src/ats2/uttMemory.cpp, line 45 off). */
module UttMemory {
  import opened Basics
  import P = PoolSpec

  /** The list of blocks from `head_` on; `current_` is a position in it, -1 for NULL. */
  class Memory {
    var blocks: seq<P.Block>
    var current: int
    var bufferSize: nat
    ghost var live: set<P.Region>

    ghost predicate Shaped()
      reads this
    {
      if blocks == [] then current == -1 else 0 <= current < |blocks|
    }

    ghost function View(): P.Pool
      reads this
    {
      P.Pool(blocks, current, bufferSize, live)
    }

    constructor (size: nat)
      ensures Shaped() && View() == P.Empty(size)
    {
      blocks, current, bufferSize, live := [], -1, size, {};
    }

    method Header(m: nat) returns (ok: bool)
      requires Shaped()
      modifies this
      ensures Shaped() && View() == P.Header(old(View()), m) && (ok <==> current >= 0)
    {
      if |blocks| == 0 {
        if bufferSize == 0 {
          bufferSize := P.DEFAULT_BUFFER_SIZE;
        }
        if m != 0 {
          blocks, current := [P.Block(m, bufferSize, P.HEADER)], 0;
        }
      }
      ok := current >= 0;
    }

    /** Size 0 asks for the pool's own block size. */
    method Extend(size: nat, m: nat) returns (ok: bool)
      requires Shaped() && current >= 0
      modifies this
      ensures Shaped() && current >= 0
      ensures var e := P.Extend(old(View()), if size == 0 then bufferSize else size, m);
        if ok then e == Some(View()) else e.None? && View() == old(View())
    {
      var length := if size == 0 then bufferSize else size;
      var next := current + 1;
      if next < |blocks| {
        current := next;
        blocks := blocks[next := blocks[next].(cursor := P.HEADER)];
      } else if m != 0 {
        blocks := blocks + [P.Block(m, length, P.HEADER)];
        current := next;
      } else {
        return false;
      }
      ok := true;
    }

    method Alloc(requested: nat, m0: nat, m1: nat) returns (r: Option<P.Region>)
      requires Shaped()
      modifies this
      ensures Shaped() && (View(), r) == P.Alloc(old(View()), requested, m0, m1)
    {
      r := None;
      var ok := Header(m0);
      if !ok { return; }
      var size := P.Align8(requested);
      if size == 0 {
        return;
      }
      r := Place(size, m1);
    }

    /** The two extensions, and the piece. */
    method Place(size: nat, m: nat) returns (r: Option<P.Region>)
      requires Shaped() && current >= 0
      modifies this
      ensures Shaped() && (View(), r) == P.Place(old(View()), size, m)
    {
      r := None;
      if bufferSize >= P.HEADER && size > bufferSize - P.HEADER {
        var ok := Extend(size + P.HEADER, m);
        if !ok { return; }
      }
      if blocks[current].cursor <= blocks[current].length && size > blocks[current].length - blocks[current].cursor {
        var ok := Extend(0, m);
        if !ok { return; }
      }
      r := Bump(size);
    }

    method Bump(size: nat) returns (r: Option<P.Region>)
      requires Shaped() && current >= 0
      modifies this`live, this`blocks
      ensures Shaped() && (View(), r) == P.Bump(old(View()), size)
    {
      r := Some(P.Region(current, blocks[current].cursor, size));
      live := live + {r.value};
      blocks := blocks[current := blocks[current].(cursor := blocks[current].cursor + size)];
    }

    method Clear()
      requires Shaped()
      modifies this
      ensures Shaped() && View() == P.Clear(old(View()))
    {
      if |blocks| != 0 {
        live := set r | r in live && P.Below(r, 0, P.HEADER);
        current := 0;
        blocks := blocks[0 := blocks[0].(cursor := P.HEADER)];
      }
    }

    method GetStatus() returns (st: P.Status)
      requires Shaped()
      ensures st == P.GetStatus(View())
    {
      if |blocks| == 0 {
        st := P.Status(0, 0);
      } else {
        st := P.Status(blocks[current].addr, blocks[current].cursor);
      }
    }

    /** The search stops at the current block; each refusal leaves everything as it was. */
    method SetStatus(st: P.Status) returns (ok: bool)
      requires Shaped()
      modifies this
      ensures Shaped() && (View(), ok) == P.SetStatus(old(View()), st)
    {
      if |blocks| == 0 { return st == P.Status(0, 0); }
      if st == P.Status(0, 0) {
        Clear();
        return true;
      }
      var i := 0;
      while blocks[i].addr != st.addr
        invariant 0 <= i <= current && View() == old(View())
        invariant P.Find(blocks, st.addr, 0, current + 1) == P.Find(blocks, st.addr, i, current + 1)
        decreases current - i
      {
        if i == current { return false; }
        i := i + 1;
      }
      if st.cursor != P.Align8(st.cursor) || st.cursor < P.HEADER || st.cursor > blocks[i].cursor { return false; }
      live := set r | r in live && P.Below(r, i, st.cursor);
      current := i;
      blocks := blocks[i := blocks[i].(cursor := st.cursor)];
      ok := true;
    }

    /** `release`: every block from position `clue` on is given back once, in order. */
    method Release(clue: nat) returns (freed: seq<nat>)
      requires clue <= |blocks|
      ensures |freed| == |blocks| - clue && forall k :: 0 <= k < |freed| ==> freed[k] == blocks[clue + k].addr
    {
      freed := [];
      for i := clue to |blocks|
        invariant |freed| == i - clue && forall k :: 0 <= k < |freed| ==> freed[k] == blocks[clue + k].addr
      {
        freed := freed + [blocks[i].addr];
      }
    }

    method FreeAll() returns (freed: seq<nat>)
      requires Shaped()
      modifies this
      ensures Shaped() && View() == P.Empty(bufferSize) && bufferSize == old(bufferSize)
      ensures |freed| == |old(blocks)| && forall k :: 0 <= k < |freed| ==> freed[k] == old(blocks)[k].addr
    {
      freed := Release(0);
      blocks, current, live := [], -1, {};
    }

    method FreeUnused() returns (freed: seq<nat>)
      requires Shaped()
      modifies this
      ensures Shaped() && View() == P.FreeUnused(old(View()))
      ensures |freed| == |old(blocks)| - |blocks| && forall k :: 0 <= k < |freed| ==> freed[k] == old(blocks)[|blocks| + k].addr
    {
      freed := Release(current + 1);
      blocks := blocks[..current + 1];
    }
  }
}
