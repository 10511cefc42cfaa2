/**
 * The exact labelling engine (`ESPPRC`), parameterised by the label class
 * so that it also runs the state-space relaxation and its decremental
 * variant. Labels live in an arena; each customer's pool holds arena
 * indices; a dead flag marks labels removed from their pool.
 */
module Espprc {
  import opened Wrappers
  import opened Graph
  import opened Labels
  import opened Extension
  import opened Chains
  import opened Seqs

  /**
   * The path of label `j` starts at the depot; it repeats no customer except
   * possibly the depot at its end; and for a label that can still be
   * extended every customer after the depot is unreachable from it.
   */
  ghost predicate ElementaryPath(arena: seq<Label>, j: nat)
    requires Linked(arena) && j < |arena|
  {
    var path := PathOf(arena, j);
    && path[0] == 0
    && NoRepeats(path[..|path| - 1])
    && (j == 0 || arena[j].customer != 0 ==>
          NoRepeats(path) && forall k :: 1 <= k < |path| ==> path[k] in arena[j].unreachable)
  }

  /** What holds of every label the engine has created. */
  ghost predicate LabelOk(inst: Instance, kind: Kind, nCustomers: nat, arena: seq<Label>, j: nat)
    requires WellFormed(inst) && Linked(arena) && j < |arena|
  {
    var l := arena[j];
    && ExtendsPrev(inst, arena, j)
    && l.unreachable <= All(Size(inst))
    && (l.prev.None? <==> j == 0)
    && (j == 0 ==> l.visited == 0)
    && (j > 0 ==> l.customer in l.unreachable)
    && (j > 0 && l.customer == 0 ==> All(Size(inst)) <= l.unreachable)
    && (l.prev.Some? ==>
          && (l.prev.value == 0 || arena[l.prev.value].customer != 0)
          && l.visited == (if kind == Exact then 0 else arena[l.prev.value].visited + 1))
    && (kind != Exact ==> l.visited <= nCustomers)
    && ElementaryPath(arena, j)
  }

  ghost predicate ArenaOk(inst: Instance, kind: Kind, nCustomers: nat, arena: seq<Label>) {
    && WellFormed(inst)
    && |arena| >= 1
    && Linked(arena)
    && (forall j :: 0 <= j < |arena| ==> arena[j].customer < Size(inst))
    && forall j {:trigger LabelOk(inst, kind, nCustomers, arena, j)} :: 0 <= j < |arena| ==> LabelOk(inst, kind, nCustomers, arena, j)
  }

  /** `b` is `a` with possibly more labels appended and unreachable sets grown. */
  ghost predicate Grows(a: seq<Label>, b: seq<Label>) {
    && |a| <= |b|
    && forall k :: 0 <= k < |a| ==>
         b[k] == a[k].(unreachable := b[k].unreachable) && a[k].unreachable <= b[k].unreachable
  }

  lemma GrowsTransitive(a: seq<Label>, b: seq<Label>, c: seq<Label>)
    requires Grows(a, b) && Grows(b, c)
    ensures Grows(a, c)
  {
  }

  /** Growing one label's unreachable set within the customers keeps every invariant. */
  lemma GrowLabel(inst: Instance, kind: Kind, nCustomers: nat, arena: seq<Label>, j: nat, u: set<nat>)
    requires ArenaOk(inst, kind, nCustomers, arena) && j < |arena|
    requires arena[j].unreachable <= u <= All(Size(inst))
    ensures ArenaOk(inst, kind, nCustomers, arena[j := arena[j].(unreachable := u)])
    ensures Grows(arena, arena[j := arena[j].(unreachable := u)])
  {
    var b := arena[j := arena[j].(unreachable := u)];
    assert Linked(b);
    assert SameChains(arena, b);
    forall i | 0 <= i < |b|
      ensures LabelOk(inst, kind, nCustomers, b, i)
    {
      assert LabelOk(inst, kind, nCustomers, arena, i);
      PathOfFrame(arena, b, i);
      assert ExtendsPrev(inst, arena, i);
      assert ExtendsPrev(inst, b, i);
    }
  }

  /** Appending a label linked to an existing one leaves the old labels' invariants intact. */
  lemma AppendKeepsOld(inst: Instance, kind: Kind, nCustomers: nat, arena: seq<Label>, child: Label)
    requires ArenaOk(inst, kind, nCustomers, arena)
    requires child.prev.Some? && child.prev.value < |arena|
    ensures Linked(arena + [child]) && SameChains(arena, arena + [child])
    ensures forall i :: 0 <= i < |arena| ==> LabelOk(inst, kind, nCustomers, arena + [child], i)
  {
    var b := arena + [child];
    assert Linked(b);
    assert SameChains(arena, b);
    forall i | 0 <= i < |arena|
      ensures LabelOk(inst, kind, nCustomers, b, i)
    {
      assert LabelOk(inst, kind, nCustomers, arena, i);
      PathOfFrame(arena, b, i);
      assert ExtendsPrev(inst, arena, i);
      assert ExtendsPrev(inst, b, i);
    }
  }

  /** The extension's path is the parent's path plus the new customer, and stays elementary. */
  lemma ChildElementary(inst: Instance, kind: Kind, nCustomers: nat, arena: seq<Label>, from: nat, to: nat, child: Label)
    requires ArenaOk(inst, kind, nCustomers, arena) && from < |arena| && to < Size(inst)
    requires to !in arena[from].unreachable && !(arena[from].customer == 0 && to == 0)
    requires child.customer == to && child.prev == Some(from)
    requires child.unreachable == {to} + (if to == 0 then All(Size(inst)) else arena[from].unreachable)
    ensures Linked(arena + [child])
    ensures ElementaryPath(arena + [child], |arena|)
    ensures from == 0 || arena[from].customer != 0
  {
    var n := Size(inst);
    var b := arena + [child];
    var j := |arena|;
    assert Linked(b);
    assert SameChains(arena, b);
    assert LabelOk(inst, kind, nCustomers, arena, from);
    assert LabelOk(inst, kind, nCustomers, arena, 0);
    assert ExtendsPrev(inst, arena, 0);
    assert to in All(n);
    assert from == 0 || arena[from].customer != 0;
    PathOfFrame(arena, b, from);
    var fpath := PathOf(arena, from);
    var path := PathOf(b, j);
    assert path == fpath + [to];
    assert path[..|path| - 1] == fpath;
    assert NoRepeats(fpath);
    if to != 0 {
      assert forall k :: 1 <= k < |fpath| ==> fpath[k] in arena[from].unreachable;
      assert forall k :: 0 <= k < |fpath| ==> fpath[k] != to;
      assert NoRepeats(path);
    }
  }

  /**
   * The label produced by extending label `from` to a customer it can still
   * reach (and not the depot to itself) keeps every invariant once appended,
   * and can reach strictly fewer customers than `from`.
   */
  lemma AppendChild(inst: Instance, kind: Kind, nCustomers: nat, criticalCs: set<nat>, arena: seq<Label>, from: nat, to: nat)
    requires ArenaOk(inst, kind, nCustomers, arena) && from < |arena| && to < Size(inst)
    requires to !in arena[from].unreachable && !(arena[from].customer == 0 && to == 0)
    requires Extend(kind, inst, nCustomers, criticalCs, arena[from], from, to).Some?
    ensures var child := Extend(kind, inst, nCustomers, criticalCs, arena[from], from, to).value;
      && ArenaOk(inst, kind, nCustomers, arena + [child])
      && Grows(arena, arena + [child])
      && Rank(Size(inst), child) < Rank(Size(inst), arena[from])
  {
    var child := Extend(kind, inst, nCustomers, criticalCs, arena[from], from, to).value;
    ChildOk(inst, kind, nCustomers, criticalCs, arena, from, to);
    AppendOk(inst, kind, nCustomers, arena, child);
    RankDrops(Size(inst), arena[from], child, to);
  }

  /** The new label itself satisfies the invariant once appended. */
  lemma ChildOk(inst: Instance, kind: Kind, nCustomers: nat, criticalCs: set<nat>, arena: seq<Label>, from: nat, to: nat)
    requires ArenaOk(inst, kind, nCustomers, arena) && from < |arena| && to < Size(inst)
    requires to !in arena[from].unreachable && !(arena[from].customer == 0 && to == 0)
    requires Extend(kind, inst, nCustomers, criticalCs, arena[from], from, to).Some?
    ensures var child := Extend(kind, inst, nCustomers, criticalCs, arena[from], from, to).value;
      && child.customer == to && child.prev == Some(from) && to in child.unreachable
      && arena[from].unreachable <= child.unreachable
      && Linked(arena + [child]) && LabelOk(inst, kind, nCustomers, arena + [child], |arena|)
  {
    var child := Extend(kind, inst, nCustomers, criticalCs, arena[from], from, to).value;
    var b := arena + [child];
    var j := |arena|;
    ChildElementary(inst, kind, nCustomers, arena, from, to, child);
    assert LabelOk(inst, kind, nCustomers, arena, from);
    assert ExtendsPrev(inst, b, j);
  }

  /** Appending a label that satisfies the invariant keeps the whole arena valid. */
  lemma AppendOk(inst: Instance, kind: Kind, nCustomers: nat, arena: seq<Label>, child: Label)
    requires ArenaOk(inst, kind, nCustomers, arena)
    requires child.prev.Some? && child.prev.value < |arena| && child.customer < Size(inst)
    requires Linked(arena + [child]) && LabelOk(inst, kind, nCustomers, arena + [child], |arena|)
    ensures ArenaOk(inst, kind, nCustomers, arena + [child]) && Grows(arena, arena + [child])
  {
    AppendKeepsOld(inst, kind, nCustomers, arena, child);
    var b := arena + [child];
    forall j | 0 <= j < |b|
      ensures LabelOk(inst, kind, nCustomers, b, j)
    {
      if j < |arena| {
        assert LabelOk(inst, kind, nCustomers, b, j);
      }
    }
  }

  /** Every label of a valid arena is the extension of the label it links back to. */
  lemma ArenaChained(inst: Instance, kind: Kind, nCustomers: nat, arena: seq<Label>)
    requires ArenaOk(inst, kind, nCustomers, arena)
    ensures ResourceChained(inst, arena)
  {
    forall j | 0 <= j < |arena|
      ensures ExtendsPrev(inst, arena, j)
    {
      assert LabelOk(inst, kind, nCustomers, arena, j);
    }
  }

  /** Each queued arena index has a recorded rank at least its current rank. */
  ghost predicate RanksBound(n: nat, arena: seq<Label>, queue: seq<nat>, ranks: seq<nat>) {
    |ranks| == |queue| && forall k :: 0 <= k < |queue| ==> queue[k] < |arena| && Rank(n, arena[queue[k]]) <= ranks[k]
  }

  /** Popping entry `i` of the queue keeps the recorded ranks aligned. */
  lemma RanksBoundRemove(n: nat, arena: seq<Label>, queue: seq<nat>, ranks: seq<nat>, i: nat)
    requires RanksBound(n, arena, queue, ranks) && i < |queue|
    ensures RanksBound(n, arena, queue[..i] + queue[i + 1..], ranks[..i] + ranks[i + 1..])
  {
    var q := queue[..i] + queue[i + 1..];
    var r := ranks[..i] + ranks[i + 1..];
    forall k | 0 <= k < |q|
      ensures q[k] < |arena| && Rank(n, arena[q[k]]) <= r[k]
    {
      if k < i {
        assert q[k] == queue[k] && r[k] == ranks[k];
      } else {
        assert q[k] == queue[k + 1] && r[k] == ranks[k + 1];
      }
    }
  }

  /** Growing unreachable sets only lowers ranks, so recorded ranks stay upper bounds. */
  lemma GrowsKeepsRanks(n: nat, a: seq<Label>, b: seq<Label>, queue: seq<nat>, ranks: seq<nat>)
    requires Grows(a, b) && RanksBound(n, a, queue, ranks)
    ensures RanksBound(n, b, queue, ranks)
  {
    forall k | 0 <= k < |queue|
      ensures Rank(n, b[queue[k]]) <= ranks[k]
    {
      RankAntitone(n, a[queue[k]], b[queue[k]]);
    }
  }

  /** Position of the first label of `queue` with the least customer: the heap's pop (`Label.__lt__`). */
  function MinCustomerPos(arena: seq<Label>, queue: seq<nat>): (i: nat)
    requires |queue| > 0 && forall k :: 0 <= k < |queue| ==> queue[k] < |arena|
    ensures i < |queue|
    ensures forall k :: 0 <= k < |queue| ==> arena[queue[i]].customer <= arena[queue[k]].customer
  {
    if |queue| == 1 then 0
    else
      var i := MinCustomerPos(arena, queue[..|queue| - 1]);
      if arena[queue[|queue| - 1]].customer < arena[queue[i]].customer then |queue| - 1 else i
  }

  /** `Label.__lt__`: labels are ordered as their customers are (`Customer.__lt__`). */
  predicate LabelLess(inst: Instance, a: Label, b: Label)
    requires a.customer < Size(inst) && b.customer < Size(inst)
  {
    CustomerLess(inst.customers[a.customer], inst.customers[b.customer])
  }

  /**
   * The label at `MinCustomerPos` is a least element of the queue under
   * `Label.__lt__`, and every label queued before it is greater: it is the
   * first least one.
   */
  lemma {:induction false} PopIsFirstLeast(inst: Instance, arena: seq<Label>, queue: seq<nat>)
    requires WellFormed(inst) && |queue| > 0
    requires forall k :: 0 <= k < |queue| ==> queue[k] < |arena| && arena[queue[k]].customer < Size(inst)
    ensures var i := MinCustomerPos(arena, queue);
      && (forall k :: 0 <= k < |queue| ==> !LabelLess(inst, arena[queue[k]], arena[queue[i]]))
      && (forall k :: 0 <= k < i ==> LabelLess(inst, arena[queue[i]], arena[queue[k]]))
  {
    if |queue| > 1 {
      var front := queue[..|queue| - 1];
      PopIsFirstLeast(inst, arena, front);
      var i := MinCustomerPos(arena, front);
      assert forall k :: 0 <= k < i ==> front[k] == queue[k];
    }
  }

  /** What `min(depot.labels, key=cost)` returns: `best` is the first label of `pool` of least cost. */
  ghost predicate FirstLeastCost(arena: seq<Label>, pool: seq<nat>, best: nat)
    requires forall k :: 0 <= k < |pool| ==> pool[k] < |arena|
  {
    exists i :: 0 <= i < |pool| && pool[i] == best
      && (forall k :: 0 <= k < |pool| ==> arena[best].cost <= arena[pool[k]].cost)
      && forall k :: 0 <= k < i ==> arena[pool[k]].cost > arena[best].cost
  }

  /** Position of the first label of `pool` of least cost: `min(depot.labels, key=cost)`. */
  function MinCostPos(arena: seq<Label>, pool: seq<nat>): (i: nat)
    requires |pool| > 0 && forall k :: 0 <= k < |pool| ==> pool[k] < |arena|
    ensures i < |pool|
    ensures forall k :: 0 <= k < |pool| ==> arena[pool[i]].cost <= arena[pool[k]].cost
    ensures forall k :: 0 <= k < i ==> arena[pool[k]].cost > arena[pool[i]].cost
  {
    if |pool| == 1 then 0
    else
      var i := MinCostPos(arena, pool[..|pool| - 1]);
      if arena[pool[|pool| - 1]].cost < arena[pool[i]].cost then |pool| - 1 else i
  }

  /** `heappop`: the first queued label of least customer leaves the queue, taking its rank's weight with it. */
  method PopMin(n: nat, arena: seq<Label>, queue: seq<nat>, ghost ranks: seq<nat>)
    returns (from: nat, rest: seq<nat>, ghost restRanks: seq<nat>, ghost r: nat)
    requires queue != [] && RanksBound(n, arena, queue, ranks)
    ensures from == queue[MinCustomerPos(arena, queue)] && multiset(rest) + multiset{from} == multiset(queue)
    ensures rest == queue[..MinCustomerPos(arena, queue)] + queue[MinCustomerPos(arena, queue) + 1..]
    ensures from < |arena| && Rank(n, arena[from]) <= r
    ensures RanksBound(n, arena, rest, restRanks)
    ensures Mass(n + 1, restRanks) + Pow(n + 1, r) == Mass(n + 1, ranks)
    ensures Mass(n + 1, restRanks) < Mass(n + 1, ranks)
  {
    var i := MinCustomerPos(arena, queue);
    from := queue[i];
    rest := queue[..i] + queue[i + 1..];
    restRanks := ranks[..i] + ranks[i + 1..];
    r := ranks[i];
    MassRemove(n + 1, ranks, i);
    RanksBoundRemove(n, arena, queue, ranks, i);
    Removal(queue, i);
  }

  /**
   * `heappush` of the label one try admitted, if any: it is the arena's
   * newest index `lo`, and its rank is below `rf`.
   */
  method Enqueue(n: nat, arena: seq<Label>, ghost lo: nat, child: Option<nat>, queue: seq<nat>, ghost ranks: seq<nat>, ghost rf: nat)
    returns (queue': seq<nat>, ghost ranks': seq<nat>, ghost kid: seq<nat>)
    requires RanksBound(n, arena, queue, ranks)
    requires child.None? ==> |arena| == lo
    requires child.Some? ==> child.value == lo && |arena| == lo + 1 && Rank(n, arena[lo]) < rf
    ensures RanksBound(n, arena, queue', ranks')
    ensures |kid| <= 1 && ranks' == ranks + kid && forall k :: 0 <= k < |kid| ==> kid[k] < rf
    ensures queue' == queue + Span(lo, |arena|) && |arena| == lo + |kid|
  {
    SpanUnit(lo);
    match child
    case None =>
      queue', ranks', kid := queue, ranks, [];
      assert queue + [] == queue && ranks + [] == ranks;
    case Some(c) =>
      kid := [Rank(n, arena[c])];
      queue', ranks' := queue + [c], ranks + kid;
  }

  /** `solve` does not try `to` from `l`: it is unreachable, or it is the depot and `l` is at the depot. */
  predicate Skipped(l: Label, to: nat) {
    to in l.unreachable || (l.customer == 0 && to == 0)
  }

  /** Some label of `pool` dominates `l`. */
  predicate DominatedIn(kind: Kind, arena: seq<Label>, pool: seq<nat>, l: Label) {
    exists k :: 0 <= k < |pool| && pool[k] < |arena| && DominatesBy(kind, arena[pool[k]], l)
  }

  /** The state one search step changes: the arena, the pools and the dead flags. */
  datatype Snapshot = Snapshot(arena: seq<Label>, pools: seq<seq<nat>>, dead: seq<bool>)

  /**
   * The state after one pass of `solve`'s inner loop tries label `from` on
   * customer `to`: a skipped target changes nothing; a failed extension
   * makes `to` unreachable from `from`; a dominated extension is dropped;
   * otherwise the extension filters the pool of `to`, marks the labels it
   * dominates dead and joins that pool under the next arena index. A state
   * outside the engine's invariant is left as it is.
   */
  function Step(kind: Kind, inst: Instance, nCustomers: nat, criticalCs: set<nat>,
                s: Snapshot, from: nat, to: nat): Snapshot
    requires WellFormed(inst)
  {
    if !(&& from < |s.arena| && s.arena[from].customer < Size(inst) && to < Size(inst)
         && to < |s.pools| && |s.dead| == |s.arena|) then s
    else
      var l := s.arena[from];
      if Skipped(l, to) then s
      else match Extend(kind, inst, nCustomers, criticalCs, l, from, to)
        case None => s.(arena := s.arena[from := l.(unreachable := l.unreachable + {to})])
        case Some(next) =>
          if DominatedIn(kind, s.arena, s.pools[to], next) then s
          else Snapshot(
            s.arena + [next],
            s.pools[to := Survivors(kind, s.arena, s.pools[to], next) + [|s.arena|]],
            Marked(kind, s.arena, s.dead, s.pools[to], next) + [false])
  }

  /** Each state of `trace` follows from the one before by trying the next customer from label `from`. */
  ghost predicate Chained(kind: Kind, inst: Instance, nCustomers: nat, criticalCs: set<nat>, from: nat, trace: seq<Snapshot>)
    requires WellFormed(inst)
  {
    forall k {:trigger Step(kind, inst, nCustomers, criticalCs, trace[k], from, k)} :: 0 <= k < |trace| - 1 ==>
      trace[k + 1] == Step(kind, inst, nCustomers, criticalCs, trace[k], from, k)
  }

  /** A chain grows by the state one more step produces. */
  lemma ChainedSnoc(kind: Kind, inst: Instance, nCustomers: nat, criticalCs: set<nat>, from: nat,
                    trace: seq<Snapshot>, s': Snapshot)
    requires WellFormed(inst) && |trace| > 0 && Chained(kind, inst, nCustomers, criticalCs, from, trace)
    requires s' == Step(kind, inst, nCustomers, criticalCs, trace[|trace| - 1], from, |trace| - 1)
    ensures Chained(kind, inst, nCustomers, criticalCs, from, trace + [s'])
  {
    var t := trace + [s'];
    forall k | 0 <= k < |t| - 1
      ensures t[k + 1] == Step(kind, inst, nCustomers, criticalCs, t[k], from, k)
    {
      if k < |trace| - 1 {
        assert t[k] == trace[k] && t[k + 1] == trace[k + 1];
        assert trace[k + 1] == Step(kind, inst, nCustomers, criticalCs, trace[k], from, k);
      }
    }
  }

  /** The last state of a chain from `start` is the state after trying its length's worth of customers. */
  lemma {:induction false} ChainedSteps(kind: Kind, inst: Instance, nCustomers: nat, criticalCs: set<nat>, from: nat,
                                         trace: seq<Snapshot>, start: Snapshot)
    requires WellFormed(inst) && |trace| > 0 && trace[0] == start
    requires Chained(kind, inst, nCustomers, criticalCs, from, trace)
    ensures trace[|trace| - 1] == Steps(kind, inst, nCustomers, criticalCs, start, from, |trace| - 1)
  {
    var m := |trace| - 1;
    if m > 0 {
      var shorter := trace[..m];
      assert Chained(kind, inst, nCustomers, criticalCs, from, shorter) by {
        forall k | 0 <= k < |shorter| - 1
          ensures shorter[k + 1] == Step(kind, inst, nCustomers, criticalCs, shorter[k], from, k)
        {
          assert shorter[k] == trace[k] && shorter[k + 1] == trace[k + 1];
          assert trace[k + 1] == Step(kind, inst, nCustomers, criticalCs, trace[k], from, k);
        }
      }
      ChainedSteps(kind, inst, nCustomers, criticalCs, from, shorter, start);
      assert trace[m] == Step(kind, inst, nCustomers, criticalCs, trace[m - 1], from, m - 1);
    }
  }

  /** The four outcomes of a pass of `solve`'s inner loop, case by case, determine `Step`. */
  lemma StepCases(kind: Kind, inst: Instance, nCustomers: nat, criticalCs: set<nat>,
                  s: Snapshot, from: nat, to: nat, s': Snapshot)
    requires WellFormed(inst) && from < |s.arena| && s.arena[from].customer < Size(inst) && to < Size(inst)
    requires to < |s.pools| && |s.dead| == |s.arena|
    requires forall k :: 0 <= k < |s.pools[to]| ==> s.pools[to][k] < |s.arena|
    requires Skipped(s.arena[from], to) ==> s' == s
    requires var ext := Extend(kind, inst, nCustomers, criticalCs, s.arena[from], from, to);
      !Skipped(s.arena[from], to) && ext.None? ==>
        s' == s.(arena := s.arena[from := s.arena[from].(unreachable := s.arena[from].unreachable + {to})])
    requires var ext := Extend(kind, inst, nCustomers, criticalCs, s.arena[from], from, to);
      !Skipped(s.arena[from], to) && ext.Some? && DominatedIn(kind, s.arena, s.pools[to], ext.value) ==> s' == s
    requires var ext := Extend(kind, inst, nCustomers, criticalCs, s.arena[from], from, to);
      !Skipped(s.arena[from], to) && ext.Some? && !DominatedIn(kind, s.arena, s.pools[to], ext.value) ==>
        && s'.arena == s.arena + [ext.value]
        && s'.pools == s.pools[to := Survivors(kind, s.arena, s.pools[to], ext.value) + [|s.arena|]]
        && |s'.dead| == |s.dead| + 1 && !s'.dead[|s.dead|]
        && forall x :: 0 <= x < |s.dead| ==>
             (s'.dead[x] <==> s.dead[x] || (x in s.pools[to] && DominatesBy(kind, ext.value, s.arena[x])))
    ensures s' == Step(kind, inst, nCustomers, criticalCs, s, from, to)
  {
    var ext := Extend(kind, inst, nCustomers, criticalCs, s.arena[from], from, to);
    if !Skipped(s.arena[from], to) && ext.Some? && !DominatedIn(kind, s.arena, s.pools[to], ext.value) {
      MarkedAt(kind, s.arena, s.dead, s.pools[to], ext.value);
      assert s'.dead == Marked(kind, s.arena, s.dead, s.pools[to], ext.value) + [false];
    }
  }

  /** The state after customers `0, 1, ..., to - 1` are tried in turn from label `from`. */
  function Steps(kind: Kind, inst: Instance, nCustomers: nat, criticalCs: set<nat>,
                 s: Snapshot, from: nat, to: nat): Snapshot
    requires WellFormed(inst)
  {
    if to == 0 then s
    else Step(kind, inst, nCustomers, criticalCs, Steps(kind, inst, nCustomers, criticalCs, s, from, to - 1), from, to - 1)
  }

  /** `Label.update_unreachable_from_prev` on label `j`: it absorbs the unreachable set of the label it extends. */
  function InheritUnreachable(arena: seq<Label>, j: nat): seq<Label>
    requires j < |arena|
  {
    if arena[j].prev.Some? && arena[j].prev.value < |arena| then
      arena[j := arena[j].(unreachable := arena[j].unreachable + arena[arena[j].prev.value].unreachable)]
    else arena
  }

  /**
   * The state after `solve` handles a popped live label `from`: it absorbs
   * its predecessor's unreachable set, then every customer is tried in
   * index order.
   */
  function Expansion(kind: Kind, inst: Instance, nCustomers: nat, criticalCs: set<nat>,
                     s: Snapshot, from: nat): Snapshot
    requires WellFormed(inst)
  {
    if from < |s.arena| then
      Steps(kind, inst, nCustomers, criticalCs, s.(arena := InheritUnreachable(s.arena, from)), from, Size(inst))
    else s
  }

  /** Where `solve`'s loop stands between passes: the engine's state and the label indices on the heap. */
  datatype Stage = Stage(snap: Snapshot, queue: seq<nat>)

  /**
   * One pass of `solve`'s loop: the first queued label of least customer is
   * popped; a dead one changes nothing, a live one turns the state into its
   * `Expansion`, and the labels that appends join the queue in arena order.
   * A stage with an empty queue, or with a queue entry outside the arena,
   * is left as it is.
   */
  ghost function SolvePass(kind: Kind, inst: Instance, nCustomers: nat, criticalCs: set<nat>, st: Stage): Stage
    requires WellFormed(inst)
  {
    if st.queue == [] || |st.snap.dead| != |st.snap.arena| || !(forall k :: 0 <= k < |st.queue| ==> st.queue[k] < |st.snap.arena|)
    then st
    else
      var i := MinCustomerPos(st.snap.arena, st.queue);
      var from := st.queue[i];
      var s' := if st.snap.dead[from] then st.snap else Expansion(kind, inst, nCustomers, criticalCs, st.snap, from);
      Stage(s', st.queue[..i] + st.queue[i + 1..] + Span(|st.snap.arena|, |s'.arena|))
  }

  /** `trace` is a run of `solve`'s loop: each stage after the first is one pass from the one before, taken on a non-empty queue. */
  ghost predicate SolveRun(kind: Kind, inst: Instance, nCustomers: nat, criticalCs: set<nat>, trace: seq<Stage>)
    requires WellFormed(inst)
  {
    forall k {:trigger SolvePass(kind, inst, nCustomers, criticalCs, trace[k])} :: 0 <= k < |trace| - 1 ==>
      trace[k].queue != [] && trace[k + 1] == SolvePass(kind, inst, nCustomers, criticalCs, trace[k])
  }

  /** A run grows by one more pass on a non-empty queue. */
  lemma SolveRunSnoc(kind: Kind, inst: Instance, nCustomers: nat, criticalCs: set<nat>, trace: seq<Stage>, st: Stage)
    requires WellFormed(inst) && |trace| > 0 && SolveRun(kind, inst, nCustomers, criticalCs, trace)
    requires trace[|trace| - 1].queue != [] && st == SolvePass(kind, inst, nCustomers, criticalCs, trace[|trace| - 1])
    ensures SolveRun(kind, inst, nCustomers, criticalCs, trace + [st])
  {
    var t := trace + [st];
    forall k | 0 <= k < |t| - 1
      ensures t[k].queue != [] && t[k + 1] == SolvePass(kind, inst, nCustomers, criticalCs, t[k])
    {
      if k < |trace| - 1 {
        assert t[k] == trace[k] && t[k + 1] == trace[k + 1];
        assert trace[k + 1] == SolvePass(kind, inst, nCustomers, criticalCs, trace[k]);
      }
    }
  }

  /**
   * A run of `solve`'s loop is determined by where it starts: two runs from
   * the same stage that both end on an empty queue are the same run, so the
   * final state is a function of the start.
   */
  lemma SolveRunUnique(kind: Kind, inst: Instance, nCustomers: nat, criticalCs: set<nat>, a: seq<Stage>, b: seq<Stage>)
    requires WellFormed(inst) && |a| > 0 && |b| > 0 && a[0] == b[0]
    requires SolveRun(kind, inst, nCustomers, criticalCs, a) && SolveRun(kind, inst, nCustomers, criticalCs, b)
    requires a[|a| - 1].queue == [] && b[|b| - 1].queue == []
    ensures a == b
  {
    var step := (st: Stage) => SolvePass(kind, inst, nCustomers, criticalCs, st);
    var done := (st: Stage) => st.queue == [];
    forall k | 0 <= k < |a| - 1
      ensures !done(a[k]) && a[k + 1] == step(a[k])
    {
      SolveRunAt(kind, inst, nCustomers, criticalCs, a, k);
    }
    forall k | 0 <= k < |b| - 1
      ensures !done(b[k]) && b[k + 1] == step(b[k])
    {
      SolveRunAt(kind, inst, nCustomers, criticalCs, b, k);
    }
    RunsAgree(step, done, a, b);
  }

  /** One pass of a run. */
  lemma SolveRunAt(kind: Kind, inst: Instance, nCustomers: nat, criticalCs: set<nat>, trace: seq<Stage>, k: nat)
    requires WellFormed(inst) && SolveRun(kind, inst, nCustomers, criticalCs, trace) && k < |trace| - 1
    ensures trace[k].queue != [] && trace[k + 1] == SolvePass(kind, inst, nCustomers, criticalCs, trace[k])
  {
    assert trace[k + 1] == SolvePass(kind, inst, nCustomers, criticalCs, trace[k]);
  }

  /** What `Round` reports about a pass is `SolvePass`. */
  lemma RoundIsPass(kind: Kind, inst: Instance, nCustomers: nat, criticalCs: set<nat>,
                    s: Snapshot, queue: seq<nat>, from: nat, rest: seq<nat>, s': Snapshot, queue': seq<nat>)
    requires WellFormed(inst) && queue != [] && |s.dead| == |s.arena|
    requires forall k :: 0 <= k < |queue| ==> queue[k] < |s.arena|
    requires from == queue[MinCustomerPos(s.arena, queue)]
    requires rest == queue[..MinCustomerPos(s.arena, queue)] + queue[MinCustomerPos(s.arena, queue) + 1..]
    requires s' == if s.dead[from] then s else Expansion(kind, inst, nCustomers, criticalCs, s, from)
    requires queue' == rest + Span(|s.arena|, |s'.arena|)
    ensures SolvePass(kind, inst, nCustomers, criticalCs, Stage(s, queue)) == Stage(s', queue')
  {
  }

  /** A minimum-cost route: its customers from the depot back to the depot, and its reduced cost. */
  datatype Route = Route(path: seq<nat>, cost: real)

  /** `min` over an empty depot pool raises. */
  datatype SolveError = EmptyDepotPool

  class Engine {
    /** Capacity, customers, cost and time matrices, and the duals the caller last set. */
    var inst: Instance
    /** Label class chosen at construction (`label_cls`). */
    const kind: Kind
    /** Bound on the visit count of the relaxations (`n_customers`). */
    const nCustomers: nat
    /** Customers whose revisits the decremental relaxation forbids (`critical_cs`). */
    var criticalCs: set<nat>
    /** Every label created by the current search; index 0 is the depot label. */
    var arena: seq<Label>
    /** `_is_dominated` of each arena label. */
    var dead: seq<bool>
    /** `customer.labels`: the arena indices of the labels kept at each customer. */
    var pools: seq<seq<nat>>

    /** Pools hold live labels of their own customer, never the depot label. */
    ghost predicate PoolsOk()
      reads this
    {
      && |dead| == |arena|
      && |pools| == Size(inst)
      && forall c, k :: 0 <= c < |pools| && 0 <= k < |pools[c]| ==>
           0 < pools[c][k] < |arena| && arena[pools[c][k]].customer == c && !dead[pools[c][k]]
    }

    ghost predicate Valid()
      reads this
    {
      ArenaOk(inst, kind, nCustomers, arena) && PoolsOk()
    }

    /** `ESPPRC.__init__` and its subclasses': duals start at zero, no critical customer. */
    constructor (capacity: real, customers: seq<Customer>, costs: seq<seq<real>>, times: seq<seq<real>>, kind: Kind, nCustomers: nat)
      requires WellFormed(Instance(capacity, customers, costs, times, seq(|customers|, _ => 0.0)))
      ensures Valid()
      ensures inst == Instance(capacity, customers, costs, times, seq(|customers|, _ => 0.0))
      ensures this.kind == kind && this.nCustomers == nCustomers && criticalCs == {}
    {
      inst := Instance(capacity, customers, costs, times, seq(|customers|, _ => 0.0));
      this.kind := kind;
      this.nCustomers := nCustomers;
      criticalCs := {};
      arena := [DepotLabel()];
      dead := [false];
      pools := seq(|customers|, _ => []);
      new;
      assert LabelOk(inst, kind, nCustomers, arena, 0);
    }

    /**
     * The caller's assignment of new dual values. Labels built under the
     * old duals no longer match the instance; `Solve` starts afresh.
     */
    method SetDuals(duals: seq<real>)
      requires WellFormed(inst) && |duals| == Size(inst)
      modifies this`inst
      ensures inst == old(inst).(duals := duals) && WellFormed(inst)
    {
      inst := inst.(duals := duals);
    }

    /** `Label.is_dominated`: some label kept at `l`'s customer dominates `l`. */
    method IsDominated(l: Label) returns (r: bool)
      requires Valid() && l.customer < |pools|
      ensures r <==> DominatedIn(kind, arena, pools[l.customer], l)
    {
      var pool := pools[l.customer];
      var i := 0;
      while i < |pool|
        invariant 0 <= i <= |pool|
        invariant forall k :: 0 <= k < i ==> !DominatesBy(kind, arena[pool[k]], l)
      {
        if DominatesBy(kind, arena[pool[i]], l) {
          return true;
        }
        i := i + 1;
      }
      return false;
    }

    /**
     * `Label.filter_dominated`: the pool of `l`'s customer keeps, in order,
     * the labels `l` does not dominate, and every label removed is flagged dead.
     */
    method FilterDominated(l: Label)
      requires Valid() && l.customer < |pools|
      modifies this`pools, this`dead
      ensures Valid()
      ensures pools == old(pools)[l.customer := Survivors(kind, arena, old(pools[l.customer]), l)]
      ensures |dead| == |old(dead)|
      ensures forall x :: 0 <= x < |dead| ==>
        (dead[x] <==> old(dead[x]) || (x in old(pools[l.customer]) && DominatesBy(kind, l, arena[x])))
    {
      var c := l.customer;
      var pool := pools[c];
      var labels: seq<nat> := [];
      var i := 0;
      while i < |pool|
        invariant 0 <= i <= |pool|
        invariant pools == old(pools)
        invariant labels == Survivors(kind, arena, pool[..i], l)
        invariant |dead| == |old(dead)|
        invariant forall x :: 0 <= x < |dead| ==>
          (dead[x] <==> old(dead[x]) || (x in pool[..i] && DominatesBy(kind, l, arena[x])))
      {
        var x := pool[i];
        assert pool[..i + 1] == pool[..i] + [x];
        if DominatesBy(kind, l, arena[x]) {
          dead := dead[x := true];
        } else {
          labels := labels + [x];
        }
        i := i + 1;
      }
      assert pool[..i] == pool;
      SurvivorsMembership(kind, arena, pool, l);
      pools := pools[c := labels];
      forall c2, k | 0 <= c2 < |pools| && 0 <= k < |pools[c2]|
        ensures 0 < pools[c2][k] < |arena| && arena[pools[c2][k]].customer == c2 && !dead[pools[c2][k]]
      {
        if c2 == c {
          var x := pools[c2][k];
          assert x in labels;
          var k' :| 0 <= k' < |pool| && pool[k'] == x;
        }
      }
    }

    /** `Label.update_unreachable_from_prev`: label `j` absorbs the unreachable set of the label it extends. */
    method UpdateUnreachableFromPrev(j: nat)
      requires Valid() && j < |arena|
      modifies this`arena
      ensures Valid() && Grows(old(arena), arena)
      ensures arena == old(arena)[j := old(arena[j]).(unreachable := old(arena[j]).unreachable +
        match old(arena[j]).prev case None => {} case Some(p) => old(arena[p]).unreachable)]
    {
      match arena[j].prev
      case None =>
        assert arena[j].unreachable + {} == arena[j].unreachable;
        assert arena == arena[j := arena[j].(unreachable := arena[j].unreachable + {})];
      case Some(p) =>
        assert LabelOk(inst, kind, nCustomers, arena, p);
        assert LabelOk(inst, kind, nCustomers, arena, j);
        GrowLabel(inst, kind, nCustomers, arena, j, arena[j].unreachable + arena[p].unreachable);
        arena := arena[j := arena[j].(unreachable := arena[j].unreachable + arena[p].unreachable)];
    }

    /** `Label.path`: walks the back-links from label `j`, then reverses what it collected. */
    method Path(j: nat) returns (path: seq<nat>)
      requires Valid() && j < |arena|
      ensures path == PathOf(arena, j)
    {
      var cur: nat := j;
      var collected: seq<nat> := [];
      while arena[cur].prev.Some?
        invariant cur < |arena|
        invariant PathOf(arena, j) == PathOf(arena, cur) + Reverse(collected)
        decreases cur
      {
        ReverseAppend(collected, arena[cur].customer);
        collected := collected + [arena[cur].customer];
        cur := arena[cur].prev.value;
      }
      ReverseAppend(collected, arena[cur].customer);
      collected := collected + [arena[cur].customer];
      path := Reverse(collected);
    }
  
    /**
     * One pass of `solve`'s inner loop: try to extend label `from` to `to`.
     * A skipped target changes nothing; a failed extension makes `to`
     * unreachable from `from`; a dominated extension is dropped; otherwise
     * the new label filters its customer's pool, joins it and is returned
     * for the queue.
     */
    method ExtendTo(from: nat, to: nat) returns (child: Option<nat>)
      requires Valid() && from < |arena| && to < Size(inst)
      modifies this`arena, this`pools, this`dead
      ensures Valid() && Grows(old(arena), arena)
      ensures child.None? ==> |arena| == |old(arena)|
      ensures child.Some? ==>
        && child.value == |old(arena)| && |arena| == |old(arena)| + 1
        && Rank(Size(inst), arena[child.value]) < Rank(Size(inst), old(arena[from]))
      ensures Skipped(old(arena[from]), to) ==>
        child.None? && arena == old(arena) && pools == old(pools) && dead == old(dead)
      ensures var ext := Extend(kind, inst, nCustomers, criticalCs, old(arena[from]), from, to);
        !Skipped(old(arena[from]), to) && ext.None? ==>
          && child.None? && pools == old(pools) && dead == old(dead)
          && arena == old(arena)[from := old(arena[from]).(unreachable := old(arena[from]).unreachable + {to})]
      ensures var ext := Extend(kind, inst, nCustomers, criticalCs, old(arena[from]), from, to);
        !Skipped(old(arena[from]), to) && ext.Some? && DominatedIn(kind, old(arena), old(pools[to]), ext.value) ==>
          child.None? && arena == old(arena) && pools == old(pools) && dead == old(dead)
      ensures var ext := Extend(kind, inst, nCustomers, criticalCs, old(arena[from]), from, to);
        !Skipped(old(arena[from]), to) && ext.Some? && !DominatedIn(kind, old(arena), old(pools[to]), ext.value) ==>
          && child == Some(|old(arena)|)
          && arena == old(arena) + [ext.value]
          && pools == old(pools)[to := Survivors(kind, old(arena), old(pools[to]), ext.value) + [|old(arena)|]]
          && |dead| == |old(dead)| + 1 && !dead[|old(dead)|]
          && forall x :: 0 <= x < |old(dead)| ==>
               (dead[x] <==> old(dead[x]) || (x in old(pools[to]) && DominatesBy(kind, ext.value, old(arena)[x])))
    {
      var l := arena[from];
      if to in l.unreachable || (l.customer == 0 && to == 0) {
        return None;
      }
      var ext := Extend(kind, inst, nCustomers, criticalCs, l, from, to);
      if ext.None? {
        Forbid(from, to);
        return None;
      }
      var next := ext.value;
      var dominated := IsDominated(next);
      if dominated {
        return None;
      }
      Admit(from, to, next);
      child := Some(|arena| - 1);
    }

    /** A failed extension: customer `to` becomes unreachable from label `from`. */
    method Forbid(from: nat, to: nat)
      requires Valid() && from < |arena| && to < Size(inst)
      modifies this`arena
      ensures Valid() && Grows(old(arena), arena)
      ensures arena == old(arena)[from := old(arena[from]).(unreachable := old(arena[from]).unreachable + {to})]
    {
      var l := arena[from];
      assert LabelOk(inst, kind, nCustomers, arena, from);
      assert to in All(Size(inst));
      GrowLabel(inst, kind, nCustomers, arena, from, l.unreachable + {to});
      arena := arena[from := l.(unreachable := l.unreachable + {to})];
    }

    /**
     * The undominated extension `next` of label `from` filters the pool of
     * its customer, is appended to it and gets the next arena index.
     */
    method Admit(from: nat, to: nat, next: Label)
      requires Valid() && from < |arena| && to < Size(inst) && !Skipped(arena[from], to)
      requires Extend(kind, inst, nCustomers, criticalCs, arena[from], from, to) == Some(next)
      modifies this`arena, this`pools, this`dead
      ensures Valid() && Grows(old(arena), arena)
      ensures arena == old(arena) + [next]
      ensures Rank(Size(inst), next) < Rank(Size(inst), old(arena[from]))
      ensures pools == old(pools)[to := Survivors(kind, old(arena), old(pools[to]), next) + [|old(arena)|]]
      ensures |dead| == |old(dead)| + 1 && !dead[|old(dead)|]
      ensures forall x :: 0 <= x < |old(dead)| ==>
        (dead[x] <==> old(dead[x]) || (x in old(pools[to]) && DominatesBy(kind, next, old(arena)[x])))
    {
      FilterDominated(next);
      AppendChild(inst, kind, nCustomers, criticalCs, arena, from, to);
      Append(next);
    }

    /** A label that keeps the arena valid gets the next index and joins its customer's pool. */
    method Append(next: Label)
      requires Valid() && next.customer < Size(inst) && ArenaOk(inst, kind, nCustomers, arena + [next])
      modifies this`arena, this`pools, this`dead
      ensures Valid()
      ensures arena == old(arena) + [next] && dead == old(dead) + [false]
      ensures pools == old(pools)[next.customer := old(pools[next.customer]) + [|old(arena)|]]
    {
      var j := |arena|;
      arena := arena + [next];
      dead := dead + [false];
      pools := pools[next.customer := pools[next.customer] + [j]];
    }
  
    /**
     * One step of `solve`'s inner loop with its queue bookkeeping: label
     * `from` is extended to `to`, and an admitted label is pushed with its
     * rank, which is below the rank `rf` of `from`.
     */
    method Push(from: nat, to: nat, queue: seq<nat>, ghost ranks: seq<nat>, ghost rf: nat)
      returns (queue': seq<nat>, ghost ranks': seq<nat>, ghost kid: seq<nat>)
      requires Valid() && from < |arena| && to < Size(inst)
      requires RanksBound(Size(inst), arena, queue, ranks) && Rank(Size(inst), arena[from]) <= rf
      modifies this`arena, this`pools, this`dead
      ensures Valid() && Grows(old(arena), arena) && Rank(Size(inst), arena[from]) <= rf
      ensures RanksBound(Size(inst), arena, queue', ranks')
      ensures |kid| <= 1 && ranks' == ranks + kid && forall k :: 0 <= k < |kid| ==> kid[k] < rf
      ensures queue' == queue + Span(|old(arena)|, |arena|) && |arena| == |old(arena)| + |kid|
      ensures Snapshot(arena, pools, dead) == Step(kind, inst, nCustomers, criticalCs, Snapshot(old(arena), old(pools), old(dead)), from, to)
    {
      var n := Size(inst);
      ghost var prior := arena;
      var child := ExtendTo(from, to);
      StepCases(kind, inst, nCustomers, criticalCs, Snapshot(prior, old(pools), old(dead)), from, to, Snapshot(arena, pools, dead));
      GrowsKeepsRanks(n, prior, arena, queue, ranks);
      RankAntitone(n, prior[from], arena[from]);
      queue', ranks', kid := Enqueue(n, arena, |prior|, child, queue, ranks, rf);
    }

    /**
     * The body of `solve`'s loop for a popped live label `from`: it absorbs
     * its predecessor's unreachable set, then every customer is tried in
     * index order and each admitted label is queued behind the old entries.
     * At most one label per customer is pushed, each of lower rank than `from`.
     */
    method Expand(from: nat, queue: seq<nat>, ghost ranks: seq<nat>)
      returns (queue': seq<nat>, ghost ranks': seq<nat>, ghost kids: seq<nat>)
      requires Valid() && from < |arena| && RanksBound(Size(inst), arena, queue, ranks)
      modifies this`arena, this`pools, this`dead
      ensures Valid() && Grows(old(arena), arena)
      ensures RanksBound(Size(inst), arena, queue', ranks')
      ensures queue' == queue + Span(|old(arena)|, |arena|) && |arena| == |old(arena)| + |kids|
      ensures Snapshot(arena, pools, dead) == Expansion(kind, inst, nCustomers, criticalCs, Snapshot(old(arena), old(pools), old(dead)), from)
      ensures ranks' == ranks + kids && |kids| <= Size(inst)
      ensures forall k :: 0 <= k < |kids| ==> kids[k] < Rank(Size(inst), old(arena[from]))
    {
      var n := Size(inst);
      ghost var before := arena;
      UpdateUnreachableFromPrev(from);
      GrowsKeepsRanks(n, before, arena, queue, ranks);
      RankAntitone(n, before[from], arena[from]);
      assert arena == InheritUnreachable(before, from);
      ghost var absorbed := Snapshot(arena, pools, dead);
      ghost var trace;
      queue', ranks', kids, trace := Scan(from, queue, ranks, Rank(n, arena[from]));
      GrowsTransitive(before, absorbed.arena, arena);
      ChainedSteps(kind, inst, nCustomers, criticalCs, from, trace, absorbed);
    }

    /** One pass of the scan: `Push`, with the new state appended to the chain `trace`. */
    method Advance(from: nat, to: nat, queue: seq<nat>, ghost ranks: seq<nat>, ghost rf: nat, ghost trace: seq<Snapshot>)
      returns (queue': seq<nat>, ghost ranks': seq<nat>, ghost kid: seq<nat>, ghost trace': seq<Snapshot>)
      requires Valid() && from < |arena| && to < Size(inst)
      requires RanksBound(Size(inst), arena, queue, ranks) && Rank(Size(inst), arena[from]) <= rf
      requires |trace| == to + 1 && trace[to] == Snapshot(arena, pools, dead)
      requires Chained(kind, inst, nCustomers, criticalCs, from, trace)
      modifies this`arena, this`pools, this`dead
      ensures Valid() && Grows(old(arena), arena) && Rank(Size(inst), arena[from]) <= rf
      ensures RanksBound(Size(inst), arena, queue', ranks')
      ensures |kid| <= 1 && ranks' == ranks + kid && forall k :: 0 <= k < |kid| ==> kid[k] < rf
      ensures queue' == queue + Span(|old(arena)|, |arena|) && |arena| == |old(arena)| + |kid|
      ensures trace' == trace + [Snapshot(arena, pools, dead)] && Chained(kind, inst, nCustomers, criticalCs, from, trace')
    {
      queue', ranks', kid := Push(from, to, queue, ranks, rf);
      ChainedSnoc(kind, inst, nCustomers, criticalCs, from, trace, Snapshot(arena, pools, dead));
      trace' := trace + [Snapshot(arena, pools, dead)];
    }

    /**
     * `solve`'s inner loop for label `from`: every customer is tried in
     * index order and each admitted label, of rank below `rf`, is queued
     * behind the old entries in creation order; `trace` leads from the old
     * state to the new one by `Step` on each customer in turn.
     */
    method Scan(from: nat, queue: seq<nat>, ghost ranks: seq<nat>, ghost rf: nat)
      returns (queue': seq<nat>, ghost ranks': seq<nat>, ghost kids: seq<nat>, ghost trace: seq<Snapshot>)
      requires Valid() && from < |arena| && RanksBound(Size(inst), arena, queue, ranks)
      requires Rank(Size(inst), arena[from]) <= rf
      modifies this`arena, this`pools, this`dead
      ensures Valid() && Grows(old(arena), arena)
      ensures RanksBound(Size(inst), arena, queue', ranks')
      ensures queue' == queue + Span(|old(arena)|, |arena|) && |arena| == |old(arena)| + |kids|
      ensures |trace| == Size(inst) + 1 && trace[0] == Snapshot(old(arena), old(pools), old(dead))
      ensures trace[Size(inst)] == Snapshot(arena, pools, dead) && Chained(kind, inst, nCustomers, criticalCs, from, trace)
      ensures ranks' == ranks + kids && |kids| <= Size(inst)
      ensures forall k :: 0 <= k < |kids| ==> kids[k] < rf
    {
      var n := Size(inst);
      queue', ranks', kids := queue, ranks, [];
      ghost var start := Snapshot(arena, pools, dead);
      ghost var pushed: seq<nat> := [];
      trace := [start];
      assert queue + [] == queue && ranks + [] == ranks;
      var to := 0;
      while to < n
        invariant 0 <= to <= n && |kids| <= to
        invariant Valid() && Size(inst) == n && from < |arena| && Grows(start.arena, arena)
        invariant Rank(n, arena[from]) <= rf
        invariant RanksBound(n, arena, queue', ranks')
        invariant queue' == queue + pushed && pushed == Span(|start.arena|, |arena|) && |arena| == |start.arena| + |kids|
        invariant ranks' == ranks + kids
        invariant forall k :: 0 <= k < |kids| ==> kids[k] < rf
        invariant |trace| == to + 1 && trace[0] == start && trace[to] == Snapshot(arena, pools, dead)
        invariant Chained(kind, inst, nCustomers, criticalCs, from, trace)
      {
        ghost var prior := Snapshot(arena, pools, dead);
        ghost var kid;
        queue', ranks', kid, trace := Advance(from, to, queue', ranks', rf, trace);
        GrowsTransitive(start.arena, prior.arena, arena);
        ghost var item := Span(|prior.arena|, |arena|);
        SpanSplit(|start.arena|, |prior.arena|, |arena|);
        ConcatAssoc(queue, pushed, item);
        ConcatAssoc(ranks, kids, kid);
        pushed := pushed + item;
        kids := kids + kid;
        to := to + 1;
      }
    }

    /**
     * `ESPPRC.solve`: a label-setting search from the depot label. Labels
     * are popped least customer first; a dead one is skipped, a live one is
     * expanded. The result is a least-cost label kept at the depot.
     */
    method Solve() returns (r: Result<Route, SolveError>, ghost best: nat, ghost run: seq<Stage>)
      requires WellFormed(inst)
      modifies this`arena, this`pools, this`dead
      ensures Valid()
      ensures |run| > 0 && run[0] == Stage(Snapshot([DepotLabel()], seq(Size(inst), _ => []), [false]), [0])
      ensures run[|run| - 1] == Stage(Snapshot(arena, pools, dead), [])
      ensures SolveRun(kind, inst, nCustomers, criticalCs, run)
      ensures r.Failure? <==> pools[0] == []
      ensures r.Success? ==>
        && best in pools[0]
        && r.value == Route(PathOf(arena, best), arena[best].cost)
        && FirstLeastCost(arena, pools[0], best)
      ensures r.Success? ==>
        var p := r.value.path;
        && |p| >= 2 && p[0] == 0 && p[|p| - 1] == 0
        && NoRepeats(p[..|p| - 1])
        && (forall k :: 0 <= k < |p| ==> p[k] < Size(inst))
      ensures r.Success? ==>
        Replay(inst, r.value.path) == Some(Resources(r.value.cost, arena[best].load, arena[best].time))
    {
      Reset();
      run := Search();
      r, best := BestRoute();
    }

    /** The start of `solve`: the arena holds only the depot label and every pool is empty. */
    method Reset()
      requires WellFormed(inst)
      modifies this`arena, this`pools, this`dead
      ensures Valid() && arena == [DepotLabel()] && dead == [false] && pools == seq(Size(inst), _ => [])
    {
      arena := [DepotLabel()];
      dead := [false];
      pools := seq(Size(inst), _ => []);
      assert LabelOk(inst, kind, nCustomers, arena, 0);
    }

    /**
     * The loop of `solve`, started from the depot label: labels are popped
     * least customer first; a dead one is skipped, a live one is expanded.
     * The loop ends because every pushed label has a smaller unreachable
     * complement than the label it extends.
     */
    method Search() returns (ghost run: seq<Stage>)
      requires Valid()
      modifies this`arena, this`pools, this`dead
      ensures Valid() && Grows(old(arena), arena)
      ensures |run| > 0 && run[0] == Stage(Snapshot(old(arena), old(pools), old(dead)), [0])
      ensures run[|run| - 1] == Stage(Snapshot(arena, pools, dead), [])
      ensures SolveRun(kind, inst, nCustomers, criticalCs, run)
    {
      var n := Size(inst);
      ghost var start := arena;
      var queue: seq<nat> := [0];
      ghost var ranks: seq<nat> := [Rank(n, arena[0])];
      run := [Stage(Snapshot(arena, pools, dead), queue)];
      while queue != []
        invariant Valid() && Size(inst) == n && Grows(start, arena)
        invariant RanksBound(n, arena, queue, ranks)
        invariant |run| > 0 && run[0] == Stage(Snapshot(old(arena), old(pools), old(dead)), [0])
        invariant run[|run| - 1] == Stage(Snapshot(arena, pools, dead), queue)
        invariant SolveRun(kind, inst, nCustomers, criticalCs, run)
        decreases Mass(n + 1, ranks)
      {
        ghost var before := arena;
        var from;
        from, queue, ranks := Round(queue, ranks, n);
        GrowsTransitive(start, before, arena);
        SolveRunSnoc(kind, inst, nCustomers, criticalCs, run, Stage(Snapshot(arena, pools, dead), queue));
        run := run + [Stage(Snapshot(arena, pools, dead), queue)];
      }
    }

    /**
     * One pass of `solve`'s loop: the first queued label `from` of least
     * customer is popped; a dead one is dropped, a live one is expanded and
     * the labels it admits join the queue. The new state and queue are
     * `SolvePass` of the old ones, and the queue's mass drops.
     */
    method Round(queue: seq<nat>, ghost ranks: seq<nat>, n: nat) returns (from: nat, queue': seq<nat>, ghost ranks': seq<nat>)
      requires Valid() && n == Size(inst) && queue != [] && RanksBound(n, arena, queue, ranks)
      modifies this`arena, this`pools, this`dead
      ensures Valid() && Grows(old(arena), arena)
      ensures RanksBound(n, arena, queue', ranks') && Mass(n + 1, ranks') < Mass(n + 1, ranks)
      ensures from == queue[MinCustomerPos(old(arena), queue)]
      ensures Stage(Snapshot(arena, pools, dead), queue') ==
        SolvePass(kind, inst, nCustomers, criticalCs, Stage(Snapshot(old(arena), old(pools), old(dead)), queue))
    {
      ghost var before := Snapshot(arena, pools, dead);
      ghost var restRanks, r;
      from, queue', restRanks, r := PopMin(n, arena, queue, ranks);
      ghost var rest := queue';
      ranks' := restRanks;
      if dead[from] {
        SpanUnit(|arena|);
        assert rest + [] == rest;
        RoundIsPass(kind, inst, nCustomers, criticalCs, before, queue, from, rest, before, queue');
        return;
      }
      ghost var kids;
      queue', ranks', kids := Expand(from, queue', restRanks);
      MassOfChildren(n, restRanks, kids, r);
      RoundIsPass(kind, inst, nCustomers, criticalCs, before, queue, from, rest, Snapshot(arena, pools, dead), queue');
    }

    /**
     * The end of `solve`: the first least-cost label of the depot pool, its
     * path and its cost. The path starts and ends at the depot, visits no
     * customer twice before returning, and replaying it reproduces the
     * label's resources.
     */
    method BestRoute() returns (r: Result<Route, SolveError>, ghost best: nat)
      requires Valid()
      ensures r.Failure? <==> pools[0] == []
      ensures r.Success? ==>
        && best in pools[0]
        && r.value == Route(PathOf(arena, best), arena[best].cost)
        && FirstLeastCost(arena, pools[0], best)
      ensures r.Success? ==> best == pools[0][MinCostPos(arena, pools[0])]
      ensures r.Success? ==>
        var p := r.value.path;
        && |p| >= 2 && p[0] == 0 && p[|p| - 1] == 0
        && NoRepeats(p[..|p| - 1])
        && (forall k :: 0 <= k < |p| ==> p[k] < Size(inst))
      ensures r.Success? ==>
        Replay(inst, r.value.path) == Some(Resources(r.value.cost, arena[best].load, arena[best].time))
    {
      if pools[0] == [] {
        return Failure(EmptyDepotPool), 0;
      }
      var minLabel := pools[0][MinCostPos(arena, pools[0])];
      best := minLabel;
      var path := Path(minLabel);
      r := Success(Route(path, arena[minLabel].cost));
      assert LabelOk(inst, kind, nCustomers, arena, minLabel);
      PathShape(arena, minLabel);
      ArenaChained(inst, kind, nCustomers, arena);
      ReplayReproduces(inst, arena, minLabel);
    }
  }
}
