/**
 The compiled build of the memory manager (src/ats2/uttMemory.cpp as line 45 selects it): one
 `malloc` for the header and one for the buffer of every request, chained for `freeAll`.
 `malloc` never fails here: the source asserts it. What is proved is that nothing is freed twice,
 and exactly when something is never freed at all.
 */
module CheckedMemory {

  const HEADER: nat := 32

  datatype Entry = Entry(header: nat, buffer: nat, cursor: nat)

  /** `chain` is what `head_` reaches; `given`, `freed` and `lost` are the addresses that `malloc` gave, `free` took, and nothing reaches any more. */
  datatype Heap = Heap(chain: seq<Entry>, current: int, given: seq<nat>, freed: seq<nat>, lost: seq<nat>)

  const EMPTY: Heap := Heap([], -1, [], [], [])

  /** The addresses of a chain in the order `release` frees them. */
  function Addresses(chain: seq<Entry>): seq<nat> {
    if chain == [] then [] else Addresses(chain[..|chain| - 1]) + [chain[|chain| - 1].buffer, chain[|chain| - 1].header]
  }

  predicate Shaped(h: Heap) {
    if h.chain == [] then h.current == -1 else 0 <= h.current < |h.chain|
  }

  /** `alloc`: the new header becomes the successor of the current one, whatever was there. */
  function Alloc(h: Heap, size: nat, header: nat, buffer: nat): Heap
    requires Shaped(h)
  {
    var kept := h.chain[..h.current + 1];
    Heap(kept + [Entry(header, buffer, size)], h.current + 1, h.given + [header, buffer], h.freed,
         h.lost + Addresses(h.chain[h.current + 1..]))
  }

  function Rewind(h: Heap, i: nat, cursor: nat): Heap
    requires i < |h.chain|
  {
    h.(current := i, chain := h.chain[i := h.chain[i].(cursor := cursor)])
  }

  function Clear(h: Heap): Heap { if h.chain == [] then h else Rewind(h, 0, HEADER) }

  /** `freeUnused`: everything behind the current entry is released. */
  function FreeUnused(h: Heap): Heap
    requires Shaped(h)
  {
    h.(chain := h.chain[..h.current + 1], freed := h.freed + Addresses(h.chain[h.current + 1..]))
  }

  function FreeAll(h: Heap): Heap { h.(chain := [], current := -1, freed := h.freed + Addresses(h.chain)) }

  /** `header` chains an entry without a buffer, which `alloc` then fills. */
  lemma AllocInSteps(h: Heap, size: nat, header: nat, buffer: nat)
    requires Shaped(h)
    ensures var kept := h.chain[..h.current + 1];
      var chained := kept + [Entry(header, 0, 0)];
      && chained[h.current + 1 := Entry(header, buffer, size)] == Alloc(h, size, header, buffer).chain
      && h.given + [header] + [buffer] == Alloc(h, size, header, buffer).given
  {
    LastReplaced(h.chain[..h.current + 1], Entry(header, 0, 0), Entry(header, buffer, size));
  }

  lemma LastReplaced(s: seq<Entry>, e: Entry, e': Entry)
    ensures (s + [e])[|s| := e'] == s + [e']
  {
  }

  lemma NothingUnused(h: Heap)
    requires Shaped(h) && h.chain == []
    ensures FreeUnused(h) == h
  {
    assert h.chain[..h.current + 1] == [] && h.freed + [] == h.freed;
  }

  // ---------- conservation ----------

  /** Every address given out is freed, reachable or lost, and only one of the three. */
  ghost predicate Balanced(h: Heap) {
    Shaped(h) && multiset(h.given) == multiset(h.freed) + multiset(Addresses(h.chain)) + multiset(h.lost)
  }

  lemma {:induction false} AddressesConcat(a: seq<Entry>, b: seq<Entry>)
    ensures Addresses(a + b) == Addresses(a) + Addresses(b)
  {
    if b == [] {
      assert a + b == a;
    } else {
      assert (a + b)[..|a + b| - 1] == a + b[..|b| - 1];
      AddressesConcat(a, b[..|b| - 1]);
    }
  }

  lemma AddressesPush(a: seq<Entry>, e: Entry)
    ensures Addresses(a + [e]) == Addresses(a) + [e.buffer, e.header]
  {
  }

  lemma {:induction false} AddressesIgnoreCursors(a: seq<Entry>, b: seq<Entry>)
    requires |a| == |b| && forall i :: 0 <= i < |a| ==> a[i].header == b[i].header && a[i].buffer == b[i].buffer
    ensures Addresses(a) == Addresses(b)
  {
    if a != [] { AddressesIgnoreCursors(a[..|a| - 1], b[..|b| - 1]); }
  }

  lemma OneMore(given: seq<nat>, freed: seq<nat>, kept: seq<nat>, rest: seq<nat>, lost: seq<nat>, header: nat, buffer: nat)
    requires multiset(given) == multiset(freed) + multiset(kept + rest) + multiset(lost)
    ensures multiset(given + [header, buffer]) == multiset(freed) + multiset(kept + [buffer, header]) + multiset(lost + rest)
  {
  }

  lemma AllocKeepsBalance(h: Heap, size: nat, header: nat, buffer: nat)
    requires Balanced(h)
    ensures Balanced(Alloc(h, size, header, buffer))
  {
    var kept, rest, e := h.chain[..h.current + 1], h.chain[h.current + 1..], Entry(header, buffer, size);
    assert kept + rest == h.chain;
    AddressesConcat(kept, rest);
    OneMore(h.given, h.freed, Addresses(kept), Addresses(rest), h.lost, header, buffer);
    AddressesPush(kept, e);
  }

  lemma RewindKeepsBalance(h: Heap, i: nat, cursor: nat)
    requires Balanced(h) && i < |h.chain|
    ensures Balanced(Rewind(h, i, cursor)) && Rewind(h, i, cursor).lost == h.lost
  {
    AddressesIgnoreCursors(h.chain, Rewind(h, i, cursor).chain);
  }

  lemma FreeAllKeepsBalance(h: Heap)
    requires Balanced(h)
    ensures Balanced(FreeAll(h)) && FreeAll(h).lost == h.lost
  {
  }

  lemma FreedToo(given: seq<nat>, freed: seq<nat>, kept: seq<nat>, rest: seq<nat>, lost: seq<nat>)
    requires multiset(given) == multiset(freed) + multiset(kept + rest) + multiset(lost)
    ensures multiset(given) == multiset(freed + rest) + multiset(kept) + multiset(lost)
  {
  }

  lemma FreeUnusedKeepsBalance(h: Heap)
    requires Balanced(h)
    ensures Balanced(FreeUnused(h)) && FreeUnused(h).lost == h.lost
  {
    var kept, rest := h.chain[..h.current + 1], h.chain[h.current + 1..];
    assert kept + rest == h.chain;
    AddressesConcat(kept, rest);
    FreedToo(h.given, h.freed, Addresses(kept), Addresses(rest), h.lost);
  }

  // ---------- sessions ----------

  datatype Op = DoAlloc(size: nat, header: nat, buffer: nat) | DoRewind(i: nat, cursor: nat) | DoFreeUnused | DoFreeAll

  /** `clear` and `setStatus` rewind; a position outside the chain is refused. */
  function Apply(h: Heap, op: Op): Heap
    requires Shaped(h)
  {
    match op
    case DoAlloc(size, header, buffer) => Alloc(h, size, header, buffer)
    case DoRewind(i, cursor) => if i < |h.chain| && i <= h.current then Rewind(h, i, cursor) else h
    case DoFreeUnused => FreeUnused(h)
    case DoFreeAll => FreeAll(h)
  }

  lemma ApplyIsShaped(h: Heap, op: Op)
    requires Shaped(h)
    ensures Shaped(Apply(h, op))
  {
  }

  function Run(ops: seq<Op>): (h: Heap)
    ensures Shaped(h)
  {
    if ops == [] then EMPTY else
      var before := Run(ops[..|ops| - 1]);
      ApplyIsShaped(before, ops[|ops| - 1]);
      Apply(before, ops[|ops| - 1])
  }

  lemma ApplyKeepsBalance(h: Heap, op: Op)
    requires Balanced(h)
    ensures Balanced(Apply(h, op))
  {
    match op {
      case DoAlloc(size, header, buffer) => AllocKeepsBalance(h, size, header, buffer);
      case DoRewind(i, cursor) => if i < |h.chain| { RewindKeepsBalance(h, i, cursor); }
      case DoFreeUnused => FreeUnusedKeepsBalance(h);
      case DoFreeAll => FreeAllKeepsBalance(h);
    }
  }

  /** In every session, with any rewinds, nothing is freed that is still reachable or lost, and nothing is freed twice. */
  lemma {:induction false} SessionsBalance(ops: seq<Op>)
    ensures Balanced(Run(ops))
  {
    if ops != [] {
      SessionsBalance(ops[..|ops| - 1]);
      ApplyKeepsBalance(Run(ops[..|ops| - 1]), ops[|ops| - 1]);
    }
  }

  /** A rewind really goes back, and the request after it loses what stood behind: two requests, a `clear`, one more. */
  lemma LosesAfterRewind(a: nat, b: nat, c: nat)
    ensures var h := Alloc(Clear(Alloc(Alloc(EMPTY, 8, a, a + 1), 8, b, b + 1)), 8, c, c + 1);
      h.lost == [b + 1, b] && h.current == 1 && |h.chain| == 2
  {
    var h1 := Alloc(EMPTY, 8, a, a + 1);
    assert h1.chain == [Entry(a, a + 1, 8)];
    var h2 := Alloc(h1, 8, b, b + 1);
    assert h2.chain == [Entry(a, a + 1, 8), Entry(b, b + 1, 8)];
    AddressesPush([], Entry(b, b + 1, 8));
    assert Clear(h2).chain[1..] == [] + [Entry(b, b + 1, 8)];
  }

  /** With `freeUnused` in between nothing is lost: what stood behind is freed. */
  lemma FreesAfterRewind(a: nat, b: nat, c: nat)
    ensures var h := Alloc(FreeUnused(Clear(Alloc(Alloc(EMPTY, 8, a, a + 1), 8, b, b + 1))), 8, c, c + 1);
      h.lost == [] && h.freed == [b + 1, b] && h.current == 1 && |h.chain| == 2
  {
    var h1 := Alloc(EMPTY, 8, a, a + 1);
    assert h1.chain == [Entry(a, a + 1, 8)];
    var h2 := Alloc(h1, 8, b, b + 1);
    assert h2.chain == [Entry(a, a + 1, 8), Entry(b, b + 1, 8)];
    AddressesPush([], Entry(b, b + 1, 8));
    assert Clear(h2).chain[1..] == [] + [Entry(b, b + 1, 8)];
    assert FreeUnused(Clear(h2)).chain == [Entry(a, a + 1, HEADER)];
  }

  /** Some request was made while entries stood behind the current one. */
  predicate AllocatesInsideChain(ops: seq<Op>) {
    ops != [] &&
    var h := Run(ops[..|ops| - 1]);
    AllocatesInsideChain(ops[..|ops| - 1]) || (ops[|ops| - 1].DoAlloc? && h.current + 1 < |h.chain|)
  }

  lemma ApplyLoses(h: Heap, op: Op)
    requires Shaped(h)
    ensures Apply(h, op).lost != [] <==> h.lost != [] || (op.DoAlloc? && h.current + 1 < |h.chain|)
  {
    if op.DoAlloc? && h.current + 1 < |h.chain| {
      var rest := h.chain[h.current + 1..];
      AddressesPush(rest[..|rest| - 1], rest[|rest| - 1]);
      assert rest == rest[..|rest| - 1] + [rest[|rest| - 1]];
    }
  }

  lemma {:induction false} LostExactly(ops: seq<Op>)
    ensures Run(ops).lost != [] <==> AllocatesInsideChain(ops)
  {
    if ops != [] {
      LostExactly(ops[..|ops| - 1]);
      ApplyLoses(Run(ops[..|ops| - 1]), ops[|ops| - 1]);
    }
  }

  /** A final `freeAll` frees everything ever given, each once, exactly when no request was made while entries stood behind the current one. */
  lemma EverythingFreedExactly(ops: seq<Op>)
    requires ops != [] && ops[|ops| - 1].DoFreeAll?
    ensures multiset(Run(ops).given) == multiset(Run(ops).freed) <==> !AllocatesInsideChain(ops)
  {
    var h := Run(ops);
    SessionsBalance(ops);
    LostExactly(ops);
    assert multiset(h.given) == multiset(h.freed) + multiset(h.lost);
    if h.lost != [] { assert multiset(h.lost)[h.lost[0]] > 0; }
  }

  lemma {:induction false} AtEndWithoutRewinds(ops: seq<Op>)
    requires forall i :: 0 <= i < |ops| ==> !ops[i].DoRewind?
    ensures Run(ops).current == |Run(ops).chain| - 1 && !AllocatesInsideChain(ops)
  {
    if ops != [] { AtEndWithoutRewinds(ops[..|ops| - 1]); }
  }

  /** Without rewinds, a final `freeAll` frees every buffer and header exactly once. */
  lemma PlainSessionsFreeAll(ops: seq<Op>)
    requires ops != [] && ops[|ops| - 1].DoFreeAll? && forall i :: 0 <= i < |ops| ==> !ops[i].DoRewind?
    ensures multiset(Run(ops).given) == multiset(Run(ops).freed)
  {
    AtEndWithoutRewinds(ops);
    EverythingFreedExactly(ops);
  }
}

/** The same as the object it is. */
module CheckedMemoryObject {
  import C = CheckedMemory

  class Memory {
    var chain: seq<C.Entry>
    var current: int
    ghost var given: seq<nat>
    ghost var freed: seq<nat>
    ghost var lost: seq<nat>

    ghost function View(): C.Heap
      reads this
    {
      C.Heap(chain, current, given, freed, lost)
    }

    constructor ()
      ensures View() == C.EMPTY
    {
      chain, current, given, freed, lost := [], -1, [], [], [];
    }

    /** `header`: chain a new header behind the current one. */
    method Header(m: nat)
      requires C.Shaped(View())
      modifies this
      ensures C.Shaped(View()) && current == old(current) + 1
      ensures chain == old(chain)[..current] + [C.Entry(m, 0, 0)] && given == old(given) + [m]
      ensures freed == old(freed) && lost == old(lost) + C.Addresses(old(chain)[current..])
    {
      if |chain| == 0 {
        chain, current := [C.Entry(m, 0, 0)], 0;
      } else {
        lost := lost + C.Addresses(chain[current + 1..]);
        chain, current := chain[..current + 1] + [C.Entry(m, 0, 0)], current + 1;
      }
      given := given + [m];
    }

    method Alloc(size: nat, m0: nat, m1: nat) returns (result: nat)
      requires C.Shaped(View())
      modifies this
      ensures View() == C.Alloc(old(View()), size, m0, m1) && result == m1
    {
      C.AllocInSteps(View(), size, m0, m1);
      Header(m0);
      result := m1;
      Fill(size, m1);
    }

    /** The current entry gets its buffer. */
    method Fill(size: nat, m1: nat)
      requires 0 <= current < |chain|
      modifies this`chain, this`given
      ensures chain == old(chain)[current := C.Entry(old(chain)[current].header, m1, size)] && given == old(given) + [m1]
    {
      chain := chain[current := chain[current].(buffer := m1, cursor := size)];
      given := given + [m1];
    }

    method Clear()
      requires C.Shaped(View())
      modifies this
      ensures View() == C.Clear(old(View()))
    {
      if |chain| != 0 {
        current := 0;
        chain := chain[0 := chain[0].(cursor := C.HEADER)];
      }
    }

    /** `release`: walk the chain from entry `first`, freeing buffer and header of each. */
    method Release(first: nat)
      requires first <= |chain|
      modifies this`freed
      ensures freed == old(freed) + C.Addresses(chain[first..])
    {
      var i := first;
      assert chain[first..first] == [];
      while i < |chain|
        invariant first <= i <= |chain|
        invariant freed == old(freed) + C.Addresses(chain[first..i])
      {
        assert chain[first..i + 1][..i - first] == chain[first..i];
        freed := freed + [chain[i].buffer, chain[i].header];
        i := i + 1;
      }
      assert chain[first..|chain|] == chain[first..];
    }

    method FreeAll()
      requires C.Shaped(View())
      modifies this
      ensures View() == C.FreeAll(old(View()))
    {
      if |chain| != 0 {
        Release(0);
        assert chain[0..] == chain;
        chain, current := [], -1;
      }
    }

    method FreeUnused()
      requires C.Shaped(View())
      modifies this
      ensures View() == C.FreeUnused(old(View()))
    {
      if |chain| == 0 {
        C.NothingUnused(View());
        return;
      }
      Release(current + 1);
      chain := chain[..current + 1];
    }
  }
}
