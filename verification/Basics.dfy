/** What several of the modules need. */
module Basics {

  datatype Option<+T> = None | Some(value: T)

  /** Marks the steps of a run that a proof looks at. */
  ghost predicate StepAt(i: int) { true }

  ghost predicate Increasing(ns: seq<nat>) { forall k, l :: 0 <= k < l < |ns| ==> ns[k] < ns[l] }

  /** Increasing numbers are determined by which they are. */
  lemma SameNumbers(a: seq<nat>, b: seq<nat>)
    requires Increasing(a) && Increasing(b) && forall n :: n in a <==> n in b
    ensures a == b
  {
    var k := if |a| <= |b| then |a| else |b|;
    SamePrefix(a, b, k);
    if k < |a| { AlsoThere(a, b, k); }
    if k < |b| { AlsoThere(b, a, k); }
    assert a[..k] == a && b[..k] == b;
  }

  lemma {:induction false} SamePrefix(a: seq<nat>, b: seq<nat>, k: nat)
    requires Increasing(a) && Increasing(b) && (forall n :: n in a <==> n in b) && k <= |a| && k <= |b|
    ensures a[..k] == b[..k]
  {
    if k > 0 {
      SamePrefix(a, b, k - 1);
      NextNumber(a, b, k - 1);
      NextNumber(b, a, k - 1);
      assert a[..k] == a[..k - 1] + [a[k - 1]] && b[..k] == b[..k - 1] + [b[k - 1]];
    }
  }

  lemma NextNumber(a: seq<nat>, b: seq<nat>, k: nat)
    requires Increasing(a) && Increasing(b) && (forall n :: n in b ==> n in a) && k < |a| && k < |b| && a[..k] == b[..k]
    ensures a[k] <= b[k]
  {
    assert b[k] in a;
    var l :| 0 <= l < |a| && a[l] == b[k];
  }

  lemma AlsoThere(a: seq<nat>, b: seq<nat>, k: nat)
    requires Increasing(a) && (forall n :: n in a ==> n in b) && k < |a| && k <= |b| && a[..k] == b[..k]
    ensures k < |b|
  {
    assert a[k] in b;
  }
}
