/**
 * Label arenas: labels linked by the arena index of the label they extend.
 * Path reconstruction, replay of a path from the depot, the filtering of a
 * label pool, and the measure that makes the labelling loops terminate.
 */
module Chains {
  import opened Wrappers
  import opened Graph
  import opened Labels
  import opened Extension

  /** Every back-link points to an earlier label, so chains never cycle. */
  predicate Linked(arena: seq<Label>) {
    forall j :: 0 <= j < |arena| && arena[j].prev.Some? ==> arena[j].prev.value < j
  }

  /** The customers on the chain ending at label `j`, oldest first (`Label.path`). */
  function PathOf(arena: seq<Label>, j: nat): (path: seq<nat>)
    requires Linked(arena) && j < |arena|
    ensures |path| >= 1
    decreases j
  {
    match arena[j].prev
    case None => [arena[j].customer]
    case Some(p) => PathOf(arena, p) + [arena[j].customer]
  }

  /** No customer occurs twice in `s`. */
  predicate NoRepeats(s: seq<nat>) {
    forall a, b :: 0 <= a < b < |s| ==> s[a] != s[b]
  }

  function Reverse(s: seq<nat>): (r: seq<nat>)
    ensures |r| == |s|
  {
    if s == [] then [] else Reverse(s[1..]) + [s[0]]
  }

  lemma {:induction false} ReverseAppend(s: seq<nat>, x: nat)
    ensures Reverse(s + [x]) == [x] + Reverse(s)
  {
    if s != [] {
      assert (s + [x])[1..] == s[1..] + [x];
      ReverseAppend(s[1..], x);
    }
  }

  /** Number of back-links followed from label `j` to the start of its chain. */
  function Depth(arena: seq<Label>, j: nat): nat
    requires Linked(arena) && j < |arena|
    decreases j
  {
    match arena[j].prev
    case None => 0
    case Some(p) => Depth(arena, p) + 1
  }

  /** A path has one customer more than its chain has links, and ends with the label's own customer. */
  lemma {:induction false} PathShape(arena: seq<Label>, j: nat)
    requires Linked(arena) && j < |arena|
    ensures |PathOf(arena, j)| == Depth(arena, j) + 1
    ensures PathOf(arena, j)[|PathOf(arena, j)| - 1] == arena[j].customer
  {
    match arena[j].prev
    case None =>
    case Some(p) => PathShape(arena, p);
  }

  /** `b` keeps the customers and back-links of the labels of `a`, and may have more labels. */
  predicate SameChains(a: seq<Label>, b: seq<Label>) {
    |a| <= |b| && forall j :: 0 <= j < |a| ==> a[j].customer == b[j].customer && a[j].prev == b[j].prev
  }

  /** Paths depend only on customers and back-links. */
  lemma {:induction false} PathOfFrame(a: seq<Label>, b: seq<Label>, j: nat)
    requires Linked(a) && Linked(b) && SameChains(a, b) && j < |a|
    ensures PathOf(a, j) == PathOf(b, j)
    decreases j
  {
    match a[j].prev
    case None =>
    case Some(p) => PathOfFrame(a, b, p);
  }

  /**
   * Replays a path from a fresh depot label: `None` when the path does not
   * start at the depot or an extension along it exceeds a resource.
   */
  function Replay(inst: Instance, path: seq<nat>): Option<Resources>
    requires WellFormed(inst) && |path| >= 1
    requires forall k :: 0 <= k < |path| ==> path[k] < Size(inst)
    decreases |path|
  {
    if |path| == 1 then
      if path[0] == 0 then Some(ResourcesOf(DepotLabel())) else None
    else
      match Replay(inst, path[..|path| - 1])
      case None => None
      case Some(res) => ExtendResources(inst, path[|path| - 2], res, path[|path| - 1])
  }

  /**
   * Label `j` is the depot label, or the extension along one arc of the
   * label it links back to.
   */
  predicate ExtendsPrev(inst: Instance, arena: seq<Label>, j: nat)
    requires WellFormed(inst) && j < |arena|
  {
    && arena[j].customer < Size(inst)
    && match arena[j].prev
       case None => arena[j].customer == 0 && ResourcesOf(arena[j]) == ResourcesOf(DepotLabel())
       case Some(p) =>
         && p < j
         && arena[p].customer < Size(inst)
         && ExtendResources(inst, arena[p].customer, ResourcesOf(arena[p]), arena[j].customer) == Some(ResourcesOf(arena[j]))
  }

  predicate ResourceChained(inst: Instance, arena: seq<Label>)
    requires WellFormed(inst)
  {
    forall j :: 0 <= j < |arena| ==> ExtendsPrev(inst, arena, j)
  }

  /**
   * Round trip: replaying the path reconstructed from a label reproduces the
   * label's cost, load and time exactly.
   */
  lemma {:induction false} ReplayReproduces(inst: Instance, arena: seq<Label>, j: nat)
    requires WellFormed(inst) && ResourceChained(inst, arena) && j < |arena|
    ensures Linked(arena)
    ensures forall k :: 0 <= k < |PathOf(arena, j)| ==> PathOf(arena, j)[k] < Size(inst)
    ensures Replay(inst, PathOf(arena, j)) == Some(ResourcesOf(arena[j]))
    decreases j
  {
    assert Linked(arena) by {
      forall i | 0 <= i < |arena| && arena[i].prev.Some?
        ensures arena[i].prev.value < i
      {
        assert ExtendsPrev(inst, arena, i);
      }
    }
    assert ExtendsPrev(inst, arena, j);
    match arena[j].prev
    case None =>
    case Some(p) =>
      ReplayReproduces(inst, arena, p);
      var path := PathOf(arena, j);
      assert path[..|path| - 1] == PathOf(arena, p);
      PathShape(arena, p);
  }

  /** `filter_dominated`'s kept labels: those of `pool` that `l` does not dominate, in pool order. */
  function Survivors(kind: Kind, arena: seq<Label>, pool: seq<nat>, l: Label): seq<nat>
  {
    if pool == [] then []
    else
      var rest := Survivors(kind, arena, pool[..|pool| - 1], l);
      var x := pool[|pool| - 1];
      if x < |arena| && DominatesBy(kind, l, arena[x]) then rest else rest + [x]
  }

  /**
   * `_is_dominated` of every arena label after `l` filters `pool`: a label
   * of the pool that `l` dominates is flagged, every other flag is kept.
   */
  function Marked(kind: Kind, arena: seq<Label>, dead: seq<bool>, pool: seq<nat>, l: Label): (d: seq<bool>)
    ensures |d| == |dead|
  {
    if dead == [] then []
    else
      var x := |dead| - 1;
      Marked(kind, arena, dead[..x], pool, l) + [dead[x] || (x in pool && x < |arena| && DominatesBy(kind, l, arena[x]))]
  }

  /** Flag `x` is set after filtering exactly when it was set before or `x` is a pool label `l` dominates. */
  lemma {:induction false} MarkedAt(kind: Kind, arena: seq<Label>, dead: seq<bool>, pool: seq<nat>, l: Label)
    requires |dead| <= |arena|
    ensures forall x :: 0 <= x < |dead| ==>
      (Marked(kind, arena, dead, pool, l)[x] <==> dead[x] || (x in pool && DominatesBy(kind, l, arena[x])))
  {
    if dead != [] {
      MarkedAt(kind, arena, dead[..|dead| - 1], pool, l);
    }
  }

  /** Filtering only drops indices. */
  lemma {:induction false} SurvivorsWithin(kind: Kind, arena: seq<Label>, pool: seq<nat>, l: Label, x: nat)
    requires x in Survivors(kind, arena, pool, l)
    ensures x in pool
  {
    if pool != [] {
      var rest := Survivors(kind, arena, pool[..|pool| - 1], l);
      if x in rest {
        SurvivorsWithin(kind, arena, pool[..|pool| - 1], l, x);
      }
    }
  }

  /**
   * A pool index survives exactly when the new label does not dominate its
   * label, and surviving never adds an index.
   */
  lemma {:induction false} SurvivorsMembership(kind: Kind, arena: seq<Label>, pool: seq<nat>, l: Label)
    requires forall k :: 0 <= k < |pool| ==> pool[k] < |arena|
    ensures forall x :: x in Survivors(kind, arena, pool, l) <==> x in pool && !DominatesBy(kind, l, arena[x])
    ensures |Survivors(kind, arena, pool, l)| <= |pool|
  {
    if pool != [] {
      SurvivorsMembership(kind, arena, pool[..|pool| - 1], l);
      assert pool == pool[..|pool| - 1] + [pool[|pool| - 1]];
    }
  }

  /** Number of customers of `All(n)` a label can still reach. */
  function Rank(n: nat, l: Label): nat {
    |All(n) - l.unreachable|
  }

  /** Growing the unreachable set never raises the rank. */
  lemma RankAntitone(n: nat, a: Label, b: Label)
    requires a.unreachable <= b.unreachable
    ensures Rank(n, b) <= Rank(n, a)
  {
    SubsetSize(All(n) - b.unreachable, All(n) - a.unreachable);
  }

  /** Adding a reachable customer to the unreachable set strictly lowers the rank. */
  lemma RankDrops(n: nat, a: Label, b: Label, x: nat)
    requires a.unreachable <= b.unreachable && x < n && x !in a.unreachable && x in b.unreachable
    ensures Rank(n, b) < Rank(n, a)
  {
    var big, small := All(n) - a.unreachable, All(n) - b.unreachable;
    assert small <= big - {x};
    SubsetSize(small, big - {x});
  }

  /** `k` copies of `unit` added up, kept apart from the solver's nonlinear arithmetic. */
  function Times(k: nat, unit: nat): nat {
    if k == 0 then 0 else Times(k - 1, unit) + unit
  }

  /** `b` to the power `e`, as repeated `Times`. */
  function Pow(b: nat, e: nat): (r: nat)
    ensures b >= 1 ==> r >= 1
  {
    if e == 0 then 1 else Times(b, Pow(b, e - 1))
  }

  lemma {:induction false} PowMonotone(b: nat, e: nat, f: nat)
    requires b >= 1 && e <= f
    ensures Pow(b, e) <= Pow(b, f)
    decreases f
  {
    if e < f {
      PowMonotone(b, e, f - 1);
      assert Pow(b, f) == Times(b - 1, Pow(b, f - 1)) + Pow(b, f - 1);
    }
  }

  lemma {:induction false} TimesIsProduct(k: nat, unit: nat)
    ensures Times(k, unit) == k * unit
  {
    if k > 0 {
      TimesIsProduct(k - 1, unit);
    }
  }

  /** At most `n` children, each weighing one unit of rank `r - 1`, weigh less than their parent. */
  lemma ChildrenLighter(n: nat, r: nat, k: nat)
    requires r >= 1 && k <= n
    ensures Times(k, Pow(n + 1, r - 1)) < Pow(n + 1, r)
  {
    var u := Pow(n + 1, r - 1);
    assert Pow(n + 1, r) == Times(n + 1, u) == Times(n, u) + u;
    TimesMonotone(k, n, u);
  }

  lemma {:induction false} TimesMonotone(k: nat, m: nat, unit: nat)
    requires k <= m
    ensures Times(k, unit) <= Times(m, unit)
    decreases m
  {
    if k < m {
      TimesMonotone(k, m - 1, unit);
    }
  }

  /** Sum of the weights `base^r` of the ranks of a queue. */
  function Mass(base: nat, ranks: seq<nat>): nat {
    if ranks == [] then 0 else Mass(base, ranks[..|ranks| - 1]) + Pow(base, ranks[|ranks| - 1])
  }

  lemma MassAppend(base: nat, ranks: seq<nat>, r: nat)
    ensures Mass(base, ranks + [r]) == Mass(base, ranks) + Pow(base, r)
  {
    assert (ranks + [r])[..|ranks|] == ranks;
  }

  /** Removing the entry at `i` takes its weight off the mass. */
  lemma {:induction false} MassRemove(base: nat, ranks: seq<nat>, i: nat)
    requires i < |ranks|
    ensures Mass(base, ranks[..i] + ranks[i + 1..]) + Pow(base, ranks[i]) == Mass(base, ranks)
    decreases |ranks|
  {
    var last := |ranks| - 1;
    if i == last {
      assert ranks[..i] + ranks[i + 1..] == ranks[..last];
    } else {
      MassRemove(base, ranks[..last], i);
      assert ranks[..last][..i] + ranks[..last][i + 1..] + [ranks[last]] == ranks[..i] + ranks[i + 1..];
      MassAppend(base, ranks[..last][..i] + ranks[..last][i + 1..], ranks[last]);
    }
  }

  /** Appending entries of rank below `r` adds at most one unit of rank `r - 1` per entry. */
  lemma {:induction false} MassAppendAll(base: nat, ranks: seq<nat>, kids: seq<nat>, r: nat)
    requires base >= 1 && forall k :: 0 <= k < |kids| ==> kids[k] < r
    ensures Mass(base, ranks + kids) <= Mass(base, ranks) + Times(|kids|, if r == 0 then 0 else Pow(base, r - 1))
    decreases |kids|
  {
    if kids == [] {
      assert ranks + kids == ranks;
    } else {
      var last := |kids| - 1;
      var init := kids[..last];
      assert forall k :: 0 <= k < |init| ==> init[k] == kids[k];
      MassAppendAll(base, ranks, init, r);
      assert ranks + kids == (ranks + init) + [kids[last]];
      MassAppend(base, ranks + init, kids[last]);
      PowMonotone(base, kids[last], r - 1);
    }
  }

  /**
   * The children a label pushes on the queue: at most `n` of them, each of
   * lower rank, weigh less than the label itself, so the queue's mass drops
   * when a label is popped and expanded.
   */
  lemma MassOfChildren(n: nat, ranks: seq<nat>, kids: seq<nat>, r: nat)
    requires |kids| <= n && forall k :: 0 <= k < |kids| ==> kids[k] < r
    ensures Mass(n + 1, ranks + kids) < Mass(n + 1, ranks) + Pow(n + 1, r)
  {
    MassAppendAll(n + 1, ranks, kids, r);
    if r == 0 {
      TimesIsProduct(|kids|, 0);
    } else {
      ChildrenLighter(n, r, |kids|);
    }
  }

  /**
   * Popping an entry of weight `base^r` and pushing at most `n` children
   * of lower rank leaves a lighter queue.
   */
  lemma PopAndPush(n: nat, ranks: seq<nat>, rest: seq<nat>, kids: seq<nat>, r: nat, ranks': seq<nat>)
    requires |kids| <= n && forall k :: 0 <= k < |kids| ==> kids[k] < r
    requires Mass(n + 1, rest) + Pow(n + 1, r) == Mass(n + 1, ranks) && ranks' == rest + kids
    ensures Mass(n + 1, ranks') < Mass(n + 1, ranks)
  {
    MassOfChildren(n, rest, kids, r);
  }

  /** The arena indices `lo, lo + 1, ..., hi - 1`: the labels a step appended, in creation order. */
  function Span(lo: nat, hi: nat): seq<nat>
    decreases hi
  {
    if hi <= lo then [] else Span(lo, hi - 1) + [hi - 1]
  }

  /** A step appends no label or one. */
  lemma SpanUnit(lo: nat)
    ensures Span(lo, lo) == [] && Span(lo, lo + 1) == [lo]
  {
  }

  /** The indices a run of steps appended are those of its first part followed by those of the rest. */
  lemma {:induction false} SpanSplit(lo: nat, mid: nat, hi: nat)
    requires lo <= mid <= hi
    ensures Span(lo, hi) == Span(lo, mid) + Span(mid, hi)
    decreases hi
  {
    if hi > mid {
      SpanSplit(lo, mid, hi - 1);
      ConcatAssoc(Span(lo, mid), Span(mid, hi - 1), [hi - 1]);
    }
  }

  /** `Span(lo, hi)` lists `lo` up to `hi - 1`, each once, in increasing order. */
  lemma {:induction false} SpanElements(lo: nat, hi: nat)
    requires lo <= hi
    ensures |Span(lo, hi)| == hi - lo
    ensures forall k :: 0 <= k < hi - lo ==> Span(lo, hi)[k] == lo + k
    decreases hi
  {
    if lo < hi {
      SpanElements(lo, hi - 1);
    }
  }

  lemma ConcatAssoc<T>(a: seq<T>, b: seq<T>, c: seq<T>)
    ensures (a + b) + c == a + (b + c)
  {
  }
}
