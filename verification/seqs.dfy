/** Sequence facts shared by the worklists of the labelling engine and of branch and bound. */
module Seqs {

  /** Taking out the entry at `i` takes one copy of it out of the sequence's multiset. */
  lemma Removal<T>(queue: seq<T>, i: nat)
    requires i < |queue|
    ensures multiset(queue[..i] + queue[i + 1..]) + multiset{queue[i]} == multiset(queue)
  {
    assert queue == queue[..i] + [queue[i]] + queue[i + 1..];
  }

  /**
   * Two runs of the same deterministic `step` from the same start, each
   * stepping only from states that are not `done` and each ending on a
   * `done` state, are the same run.
   */
  lemma {:induction false} RunsAgree<S>(step: S -> S, done: S -> bool, a: seq<S>, b: seq<S>)
    requires |a| > 0 && |b| > 0 && a[0] == b[0]
    requires forall k :: 0 <= k < |a| - 1 ==> !done(a[k]) && a[k + 1] == step(a[k])
    requires forall k :: 0 <= k < |b| - 1 ==> !done(b[k]) && b[k + 1] == step(b[k])
    requires done(a[|a| - 1]) && done(b[|b| - 1])
    ensures a == b
    decreases |a|
  {
    assert |a| > 1 ==> !done(a[0]);
    assert |b| > 1 ==> !done(b[0]);
    if |a| > 1 && |b| > 1 {
      var a', b' := a[1..], b[1..];
      forall k | 0 <= k < |a'| - 1
        ensures !done(a'[k]) && a'[k + 1] == step(a'[k])
      {
        assert a'[k] == a[k + 1] && a'[k + 1] == a[k + 2];
      }
      forall k | 0 <= k < |b'| - 1
        ensures !done(b'[k]) && b'[k + 1] == step(b'[k])
      {
        assert b'[k] == b[k + 1] && b'[k + 1] == b[k + 2];
      }
      RunsAgree(step, done, a', b');
      assert a == [a[0]] + a' && b == [b[0]] + b';
    }
  }
}
