/** The shared limit point with its two fixed arrays (`allimPoint`, src/allim/lib/allib.c). */
module SharedPoint {
  import L = LimitPoint

  class Shared {
    var mFile: string
    var mID: string
    var mCount: L.int32
    var mErrNo: L.int32
    const mThreadIDs: array<nat>
    const mHitCounts: array<L.int32>

    ghost predicate Valid()
      reads this
    {
      mThreadIDs.Length == mHitCounts.Length == L.MAX_THREADS
    }

    ghost function View(): L.Point
      reads this, mThreadIDs, mHitCounts
    {
      L.Point(mFile, mID, mCount, mErrNo, mThreadIDs[..], mHitCounts[..])
    }

    /** A new segment is all zeroes. */
    constructor ()
      ensures Valid() && fresh(mThreadIDs) && fresh(mHitCounts) && L.Held(mThreadIDs[..], 0)
    {
      mFile, mID, mCount, mErrNo := "", "", 0, 0;
      mThreadIDs := new nat[L.MAX_THREADS](_ => 0);
      mHitCounts := new L.int32[L.MAX_THREADS](_ => 0);
    }

    method PointSet(file: string, id: string, count: L.int32, errNo: L.int32)
      requires Valid()
      modifies this, mHitCounts
      ensures Valid() && View() == L.Set(old(View()), file, id, count, errNo)
    {
      if 0 < |file| { mFile := file; }
      if 0 < |id| { mID := id; }
      mCount, mErrNo := count, errNo;
      for i := 0 to L.MAX_THREADS
        modifies mHitCounts
        invariant forall j :: 0 <= j < i ==> mHitCounts[j] == count
      {
        mHitCounts[i] := count;
      }
      assert View().hits == L.Set(old(View()), file, id, count, errNo).hits;
    }

    method PointClear()
      requires Valid()
      modifies this
      ensures Valid() && View() == L.Clear(old(View()))
    {
      mFile, mID, mCount, mErrNo := "", "", 0, 0;
    }

    /** The loop over the slots: stop at the thread's own or at a free one. */
    method FindSlot(t: nat) returns (i: nat)
      requires Valid()
      ensures i == L.Slot(mThreadIDs[..], t) <= L.MAX_THREADS
    {
      i := 0;
      while i < L.MAX_THREADS
        invariant 0 <= i <= L.MAX_THREADS
        invariant forall j :: 0 <= j < i ==> mThreadIDs[j] != t && mThreadIDs[j] != 0
      {
        if t == mThreadIDs[i] || 0 == mThreadIDs[i] { break; }
        i := i + 1;
      }
      L.SlotIs(mThreadIDs[..], t, i);
    }

    /** `strstr(file, "/")`: the first slash. */
    static method FirstSlash(file: string) returns (i: nat)
      ensures i <= |file| && (i < |file| ==> file[i] == '/') && '/' !in file[..i]
    {
      i := 0;
      while i < |file| && file[i] != '/'
        invariant i <= |file| && '/' !in file[..i]
      {
        i := i + 1;
      }
    }

    static lemma {:induction false} SkipsDirectory(file: string, i: nat)
      requires i < |file| && file[i] == '/'
      ensures L.Base(file) == L.Base(file[i + 1..])
    {
      if i > 0 {
        SkipsDirectory(file[1..], i - 1);
        assert file[1..][i - 1] == '/' && file[1..][i..] == file[i + 1..];
      } else if '/' !in file[1..] {
        L.BaseIsLastPart(file[1..]);
      }
    }

    /** The loop that drops one directory after the other. */
    static method Basename(name: string) returns (file: string)
      ensures file == L.Base(name)
    {
      file := name;
      var i := FirstSlash(file);
      while i < |file|
        invariant 0 <= i <= |file| && (i < |file| ==> file[i] == '/') && '/' !in file[..i] && L.Base(file) == L.Base(name)
        decreases |file|
      {
        SkipsDirectory(file, i);
        file := file[i + 1..];
        i := FirstSlash(file);
      }
      assert file[..i] == file;
      L.BaseIsLastPart(file);
    }

    method PointPass(t: nat, name: string, id: string) returns (out: L.Outcome)
      requires Valid()
      modifies mThreadIDs, mHitCounts
      ensures Valid() && (View(), out) == L.Pass(old(View()), t, name, id)
    {
      var i := FindSlot(t);
      if i == L.MAX_THREADS { return L.NoSpace; }
      mThreadIDs[i] := t;
      assert mThreadIDs[..] == old(mThreadIDs[..])[i := t];
      if mFile == L.EVERYWHERE { return L.Passed(true, mErrNo); }
      out := L.Passed(false, 0);
      var file := Basename(name);
      if mFile == file {
        if mID == L.EVERYWHERE {
          out := L.Passed(true, mErrNo);
        } else if mID == id {
          var hitCount := L.Decrement(mHitCounts[i]);
          mHitCounts[i] := hitCount;
          if hitCount == 0 {
            out := L.Passed(true, mErrNo);
            mHitCounts[i] := mCount;
          }
          assert mHitCounts[..] == old(mHitCounts[..])[i := mHitCounts[i]];
        }
      }
    }

    method PointDone(t: nat) returns (ok: bool)
      requires Valid()
      modifies mThreadIDs
      ensures Valid() && (View(), ok) == L.Done(old(View()), t)
    {
      var i := FindSlot(t);
      if i == L.MAX_THREADS { return false; }
      mThreadIDs[i] := 0;
      ok := true;
    }
  }
}
