/**
 * The earlier single-file pricing engine (`VRPTW`): the same labels and
 * dominance as the exact engine, but a new label's unreachable set is
 * computed eagerly, by probing every customer before the label is kept.
 * The depot is customer 0; the customers tried are 1 to n - 1 (the copy of
 * the depot at the end included), never the depot itself.
 */
module Vrptw {
  import opened Wrappers
  import opened Graph
  import opened Labels
  import opened Extension
  import opened Chains
  import opened Espprc
  import opened Seqs

  /**
   * `VRPTW.extended_label`: the resource update of the exact engine; the
   * new label's unreachable set is its own customer plus the unreachable
   * set of `from`, with no special case for the depot.
   */
  function EagerExtend(inst: Instance, from: Label, fromIdx: nat, to: nat): (r: Option<Label>)
    requires WellFormed(inst) && from.customer < Size(inst) && to < Size(inst)
    ensures r.None? <==> ExtendResources(inst, from.customer, ResourcesOf(from), to).None?
    ensures r.Some? ==>
      && ResourcesOf(r.value) == ExtendResources(inst, from.customer, ResourcesOf(from), to).value
      && r.value.customer == to && r.value.prev == Some(fromIdx)
      && r.value.unreachable == {to} + from.unreachable
    ensures to != 0 ==> r == BaseExtend(inst, from, fromIdx, to)
  {
    match ExtendResources(inst, from.customer, ResourcesOf(from), to)
    case None => None
    case Some(res) =>
      var made := NewLabel(to, res.cost, res.load, res.time, Some(fromIdx));
      Some(made.(unreachable := made.unreachable + from.unreachable))
  }

  /** The customers below `bound` that `l` may still reach but cannot be extended to. */
  ghost function FailingBelow(inst: Instance, l: Label, bound: nat): set<nat>
    requires WellFormed(inst) && l.customer < Size(inst)
  {
    set c | 1 <= c < bound && c < Size(inst) && c !in l.unreachable
      && ExtendResources(inst, l.customer, ResourcesOf(l), c).None?
  }

  /** What `update_unreachable_cs` adds to the unreachable set of `l`. */
  ghost function Failing(inst: Instance, l: Label): set<nat>
    requires WellFormed(inst) && l.customer < Size(inst)
  {
    FailingBelow(inst, l, Size(inst))
  }

  /** Label `l` after `update_unreachable_cs`. */
  ghost function Absorbed(inst: Instance, l: Label): Label
    requires WellFormed(inst) && l.customer < Size(inst)
  {
    l.(unreachable := l.unreachable + Failing(inst, l))
  }

  /** Every customer `l` does not mark unreachable can be reached from it. */
  ghost predicate Saturated(inst: Instance, l: Label)
    requires WellFormed(inst) && l.customer < Size(inst)
  {
    forall c :: 1 <= c < Size(inst) && c !in l.unreachable ==>
      ExtendResources(inst, l.customer, ResourcesOf(l), c).Some?
  }

  /**
   * Label `j` extends its predecessor by one customer it could still reach,
   * with the resources of that extension, and knows every customer it can
   * no longer reach.
   */
  ghost predicate Fresh(inst: Instance, arena: seq<Label>, j: nat)
    requires WellFormed(inst) && j < |arena|
  {
    match arena[j].prev
    case None => false
    case Some(p) =>
      && p < j
      && 1 <= arena[j].customer < Size(inst) && arena[p].customer < Size(inst)
      && arena[j].customer !in arena[p].unreachable
      && ExtendResources(inst, arena[p].customer, ResourcesOf(arena[p]), arena[j].customer) == Some(ResourcesOf(arena[j]))
      && {arena[j].customer} + arena[p].unreachable <= arena[j].unreachable
      && Saturated(inst, arena[j])
  }

  /** `b` is `a` with labels appended. */
  ghost predicate AppendOnly(a: seq<Label>, b: seq<Label>) {
    |a| <= |b| && forall k :: 0 <= k < |a| ==> b[k] == a[k]
  }

  lemma AppendOnlyTransitive(a: seq<Label>, b: seq<Label>, c: seq<Label>)
    requires AppendOnly(a, b) && AppendOnly(b, c)
    ensures AppendOnly(a, c)
  {
  }

  lemma AppendOnlyGrows(a: seq<Label>, b: seq<Label>)
    requires AppendOnly(a, b)
    ensures Grows(a, b)
  {
    forall k | 0 <= k < |a|
      ensures b[k] == a[k].(unreachable := b[k].unreachable)
    {
      assert b[k] == a[k];
    }
  }

  /** The label `subproblem` starts from: the depot, at no cost, with only the depot unreachable. */
  function RootLabel(): (l: Label)
    ensures l.customer == 0 && l.prev == None && l.unreachable == {0}
  {
    NewLabel(0, 0.0, 0.0, 0.0, None)
  }

  /**
   * The extension `next` of label `from` to `to`, grown by the customers it
   * cannot reach, is a fresh label when appended, of lower rank than `from`.
   */
  lemma FreshAppend(inst: Instance, arena: seq<Label>, from: nat, to: nat, next: Label, upd: Label)
    requires WellFormed(inst) && from < |arena| && 1 <= to < Size(inst)
    requires arena[from].customer < Size(inst)
    requires to !in arena[from].unreachable && arena[from].unreachable <= All(Size(inst))
    requires EagerExtend(inst, arena[from], from, to) == Some(next)
    requires upd == Absorbed(inst, next) && Saturated(inst, upd)
    ensures upd.customer == to && upd.prev == Some(from) && to in upd.unreachable
    ensures upd.unreachable <= All(Size(inst))
    ensures Fresh(inst, arena + [upd], |arena|)
    ensures Rank(Size(inst), upd) < Rank(Size(inst), arena[from])
  {
    var b := arena + [upd];
    assert b[from] == arena[from] && b[|arena|] == upd;
    assert ResourcesOf(upd) == ResourcesOf(next);
    RankDrops(Size(inst), arena[from], upd, to);
  }

  /** Label `j` cannot reach its own customer again, and links back to an earlier label. */
  ghost predicate Held(n: nat, arena: seq<Label>, j: nat)
    requires j < |arena|
  {
    && arena[j].customer in arena[j].unreachable
    && arena[j].unreachable <= All(n)
    && (arena[j].prev.Some? ==> arena[j].prev.value < j)
  }

  /** Labels that link back only to earlier labels form chains. */
  lemma HeldLinked(n: nat, arena: seq<Label>)
    requires forall j {:trigger Held(n, arena, j)} :: 0 <= j < |arena| ==> Held(n, arena, j)
    ensures Linked(arena)
  {
    forall j | 0 <= j < |arena| && arena[j].prev.Some?
      ensures arena[j].prev.value < j
    {
      assert Held(n, arena, j);
    }
  }

  /** Every label after `root` is fresh and links back to `root` or a later label. */
  ghost predicate FreshFrom(inst: Instance, arena: seq<Label>, root: nat)
    requires WellFormed(inst)
  {
    forall j :: root < j < |arena| ==> FreshAfter(inst, arena, root, j)
  }

  /** Label `j` is fresh and links back to `root` or a later label. */
  ghost predicate FreshAfter(inst: Instance, arena: seq<Label>, root: nat, j: nat)
    requires WellFormed(inst) && j < |arena|
  {
    arena[j].prev.Some? && root <= arena[j].prev.value && Fresh(inst, arena, j)
  }

  /** Appending one fresh label that links back to `root` or later keeps `FreshFrom`. */
  lemma FreshFromAppend(inst: Instance, a: seq<Label>, b: seq<Label>, root: nat)
    requires WellFormed(inst)
    requires AppendOnly(a, b) && |b| <= |a| + 1 && FreshFrom(inst, a, root)
    requires |b| == |a| + 1 ==> b[|a|].prev.Some? && root <= b[|a|].prev.value && Fresh(inst, b, |a|)
    ensures FreshFrom(inst, b, root)
  {
    forall j | root < j < |b|
      ensures FreshAfter(inst, b, root, j)
    {
      if j == |a| {
        assert b[j].prev.Some? && root <= b[j].prev.value && Fresh(inst, b, j);
      } else {
        assert FreshAfter(inst, a, root, j);
        var p := a[j].prev.value;
        assert b[j] == a[j] && b[p] == a[p];
      }
    }
  }

  /**
   * From a label kept by one run of `subproblem`, the path back to that
   * run's root (`Label.path`) starts at the depot, visits no customer twice,
   * lies within the label's unreachable set, and replaying it reproduces
   * the label's cost, load and time.
   */
  lemma {:induction false} FreshChain(inst: Instance, arena: seq<Label>, root: nat, j: nat)
    requires WellFormed(inst) && Linked(arena) && root <= j < |arena|
    requires arena[root] == RootLabel() && FreshFrom(inst, arena, root)
    ensures PathOf(arena, j)[0] == 0 && NoRepeats(PathOf(arena, j))
    ensures forall k :: 0 <= k < |PathOf(arena, j)| ==>
      PathOf(arena, j)[k] < Size(inst) && PathOf(arena, j)[k] in arena[j].unreachable
    ensures Replay(inst, PathOf(arena, j)) == Some(ResourcesOf(arena[j]))
    decreases j
  {
    if j > root {
      assert FreshAfter(inst, arena, root, j);
      var p := arena[j].prev.value;
      FreshChain(inst, arena, root, p);
      PathShape(arena, p);
      var path := PathOf(arena, j);
      assert path == PathOf(arena, p) + [arena[j].customer];
      assert path[..|path| - 1] == PathOf(arena, p);
    }
  }

  /**
   * The state after one pass of `subproblem`'s inner loop tries label
   * `from` on customer `to`: an unreachable target, a failed extension and
   * a dominated one change nothing. Otherwise the labels the extension
   * dominates leave the pool of `to` and are marked dead, the extension
   * absorbs the customers it cannot reach, and it joins that pool under the
   * next arena index unless that made a kept label dominate it. The depot
   * is never a target, and a state outside the problem's invariant is left
   * as it is.
   */
  ghost function Try(inst: Instance, s: Snapshot, from: nat, to: nat): Snapshot
  {
    if !(&& WellFormed(inst) && from < |s.arena| && s.arena[from].customer < Size(inst) && 1 <= to < Size(inst)
         && to < |s.pools| && |s.dead| == |s.arena|) then s
    else
      var l := s.arena[from];
      if to in l.unreachable then s
      else match EagerExtend(inst, l, from, to)
        case None => s
        case Some(next) =>
          if DominatedIn(Exact, s.arena, s.pools[to], next) then s
          else
            var kept := Survivors(Exact, s.arena, s.pools[to], next);
            var dead := Marked(Exact, s.arena, s.dead, s.pools[to], next);
            var upd := Absorbed(inst, next);
            if DominatedIn(Exact, s.arena, kept, upd) then
              Snapshot(s.arena, s.pools[to := kept], dead)
            else
              Snapshot(s.arena + [upd], s.pools[to := kept + [|s.arena|]], dead + [false])
  }

  /** The state after customers `0, 1, ..., to - 1` are tried in turn from label `from`. */
  ghost function Tries(inst: Instance, s: Snapshot, from: nat, to: nat): Snapshot
  {
    if to == 0 then s else Try(inst, Tries(inst, s, from, to - 1), from, to - 1)
  }

  /** Each state of `trace` follows from the one before by trying the next customer from label `from`. */
  ghost predicate TryChained(inst: Instance, from: nat, trace: seq<Snapshot>)
  {
    forall k {:trigger Try(inst, trace[k], from, k)} :: 0 <= k < |trace| - 1 ==> trace[k + 1] == Try(inst, trace[k], from, k)
  }

  /** A chain grows by the state one more try produces. */
  lemma TryChainedSnoc(inst: Instance, from: nat, to: nat, trace: seq<Snapshot>, s': Snapshot)
    requires |trace| == to + 1 && TryChained(inst, from, trace)
    requires s' == Try(inst, trace[to], from, to)
    ensures TryChained(inst, from, trace + [s'])
  {
    var t := trace + [s'];
    forall k | 0 <= k < |t| - 1
      ensures t[k + 1] == Try(inst, t[k], from, k)
    {
      if k < |trace| - 1 {
        assert t[k] == trace[k] && t[k + 1] == trace[k + 1];
        assert trace[k + 1] == Try(inst, trace[k], from, k);
      }
    }
  }

  /** The last state of a chain from `start` is the state after trying its length's worth of customers. */
  lemma {:induction false} TryChainedTries(inst: Instance, from: nat, trace: seq<Snapshot>, start: Snapshot)
    requires |trace| > 0 && trace[0] == start && TryChained(inst, from, trace)
    ensures trace[|trace| - 1] == Tries(inst, start, from, |trace| - 1)
  {
    var m := |trace| - 1;
    if m > 0 {
      var shorter := trace[..m];
      assert TryChained(inst, from, shorter) by {
        forall k | 0 <= k < |shorter| - 1
          ensures shorter[k + 1] == Try(inst, shorter[k], from, k)
        {
          assert shorter[k] == trace[k] && shorter[k + 1] == trace[k + 1];
          assert trace[k + 1] == Try(inst, trace[k], from, k);
        }
      }
      TryChainedTries(inst, from, shorter, start);
      assert trace[m] == Try(inst, trace[m - 1], from, m - 1);
    }
  }

  /**
   * One pass of `subproblem`'s loop: the first queued label of least
   * customer is popped; a dead one changes nothing, a live one turns the
   * state into `Tries` over every customer, and the labels that appends
   * join the queue in arena order. A stage with an empty queue, or with a
   * queue entry outside the arena, is left as it is.
   */
  ghost function SubproblemPass(inst: Instance, st: Stage): Stage
  {
    if st.queue == [] || |st.snap.dead| != |st.snap.arena| || !(forall k :: 0 <= k < |st.queue| ==> st.queue[k] < |st.snap.arena|)
    then st
    else
      var i := MinCustomerPos(st.snap.arena, st.queue);
      var from := st.queue[i];
      var s' := if st.snap.dead[from] then st.snap else Tries(inst, st.snap, from, Size(inst));
      Stage(s', st.queue[..i] + st.queue[i + 1..] + Span(|st.snap.arena|, |s'.arena|))
  }

  /** `trace` is a run of `subproblem`'s loop: each stage after the first is one pass from the one before, taken on a non-empty queue. */
  ghost predicate SubproblemRun(inst: Instance, trace: seq<Stage>)
  {
    forall k {:trigger SubproblemPass(inst, trace[k])} :: 0 <= k < |trace| - 1 ==>
      trace[k].queue != [] && trace[k + 1] == SubproblemPass(inst, trace[k])
  }

  /** A run grows by one more pass on a non-empty queue. */
  lemma SubproblemRunSnoc(inst: Instance, trace: seq<Stage>, st: Stage)
    requires |trace| > 0 && SubproblemRun(inst, trace)
    requires trace[|trace| - 1].queue != [] && st == SubproblemPass(inst, trace[|trace| - 1])
    ensures SubproblemRun(inst, trace + [st])
  {
    var t := trace + [st];
    forall k | 0 <= k < |t| - 1
      ensures t[k].queue != [] && t[k + 1] == SubproblemPass(inst, t[k])
    {
      if k < |trace| - 1 {
        assert t[k] == trace[k] && t[k + 1] == trace[k + 1];
        assert trace[k + 1] == SubproblemPass(inst, trace[k]);
      }
    }
  }

  /** One pass of a run. */
  lemma SubproblemRunAt(inst: Instance, trace: seq<Stage>, k: nat)
    requires SubproblemRun(inst, trace) && k < |trace| - 1
    ensures trace[k].queue != [] && trace[k + 1] == SubproblemPass(inst, trace[k])
  {
    assert trace[k + 1] == SubproblemPass(inst, trace[k]);
  }

  /**
   * A run of `subproblem`'s loop is determined by where it starts: two runs
   * from the same stage that both end on an empty queue are the same run.
   */
  lemma SubproblemRunUnique(inst: Instance, a: seq<Stage>, b: seq<Stage>)
    requires |a| > 0 && |b| > 0 && a[0] == b[0]
    requires SubproblemRun(inst, a) && SubproblemRun(inst, b)
    requires a[|a| - 1].queue == [] && b[|b| - 1].queue == []
    ensures a == b
  {
    var step := (st: Stage) => SubproblemPass(inst, st);
    var done := (st: Stage) => st.queue == [];
    forall k | 0 <= k < |a| - 1
      ensures !done(a[k]) && a[k + 1] == step(a[k])
    {
      SubproblemRunAt(inst, a, k);
    }
    forall k | 0 <= k < |b| - 1
      ensures !done(b[k]) && b[k + 1] == step(b[k])
    {
      SubproblemRunAt(inst, b, k);
    }
    RunsAgree(step, done, a, b);
  }

  /** What `Round` reports about a pass is `SubproblemPass`. */
  lemma RoundIsSubproblemPass(inst: Instance, s: Snapshot, queue: seq<nat>, from: nat, rest: seq<nat>,
                              s': Snapshot, queue': seq<nat>, trace: seq<Snapshot>)
    requires queue != [] && |s.dead| == |s.arena|
    requires forall k :: 0 <= k < |queue| ==> queue[k] < |s.arena|
    requires from == queue[MinCustomerPos(s.arena, queue)]
    requires rest == queue[..MinCustomerPos(s.arena, queue)] + queue[MinCustomerPos(s.arena, queue) + 1..]
    requires s.dead[from] ==> s' == s
    requires !s.dead[from] ==> |trace| == Size(inst) + 1 && trace[0] == s && trace[Size(inst)] == s' && TryChained(inst, from, trace)
    requires queue' == rest + Span(|s.arena|, |s'.arena|)
    ensures SubproblemPass(inst, Stage(s, queue)) == Stage(s', queue')
  {
    if !s.dead[from] {
      TryChainedTries(inst, from, trace, s);
    }
  }

  /** An admitted extension, described by its effect on the arena, the pools and the dead flags, is what `Try` computes. */
  lemma TryAdmitted(inst: Instance, s: Snapshot, from: nat, to: nat, next: Label, s': Snapshot, child: Option<nat>)
    requires WellFormed(inst) && from < |s.arena| && s.arena[from].customer < Size(inst) && 1 <= to < Size(inst)
    requires to < |s.pools| && |s.dead| == |s.arena| && to !in s.arena[from].unreachable
    requires EagerExtend(inst, s.arena[from], from, to) == Some(next)
    requires !DominatedIn(Exact, s.arena, s.pools[to], next)
    requires |s'.dead| == |s.dead| + (if child.None? then 0 else 1)
    requires forall x :: 0 <= x < |s.dead| ==>
      (s'.dead[x] <==> s.dead[x] || (x in s.pools[to] && Dominates(next, s.arena[x])))
    requires child.None? <==>
      Failing(inst, next) != {} && DominatedIn(Exact, s.arena, Survivors(Exact, s.arena, s.pools[to], next), Absorbed(inst, next))
    requires child.None? ==>
      s'.arena == s.arena && s'.pools == s.pools[to := Survivors(Exact, s.arena, s.pools[to], next)]
    requires child.Some? ==>
      && child.value == |s.arena| && s'.arena == s.arena + [Absorbed(inst, next)] && !s'.dead[child.value]
      && s'.pools == s.pools[to := Survivors(Exact, s.arena, s.pools[to], next) + [child.value]]
    ensures s' == Try(inst, s, from, to)
  {
    var d := Marked(Exact, s.arena, s.dead, s.pools[to], next);
    MarkedAt(Exact, s.arena, s.dead, s.pools[to], next);
    if Failing(inst, next) == {} {
      UndominatedStays(inst, s.arena, s.pools[to], next);
    }
    if child.None? {
      assert s'.dead == d;
    } else {
      assert s'.dead == d + [false];
    }
  }

  /**
   * When `update_unreachable_cs` adds nothing, no label kept after filtering
   * dominates the extension, since none of the pool did: skipping the second
   * dominance check then loses nothing.
   */
  lemma UndominatedStays(inst: Instance, arena: seq<Label>, pool: seq<nat>, next: Label)
    requires WellFormed(inst) && next.customer < Size(inst)
    requires !DominatedIn(Exact, arena, pool, next) && Failing(inst, next) == {}
    ensures !DominatedIn(Exact, arena, Survivors(Exact, arena, pool, next), Absorbed(inst, next))
  {
    var kept := Survivors(Exact, arena, pool, next);
    assert Absorbed(inst, next) == next;
    if DominatedIn(Exact, arena, kept, next) {
      var k :| 0 <= k < |kept| && kept[k] < |arena| && DominatesBy(Exact, arena[kept[k]], next);
      SurvivorsWithin(Exact, arena, pool, next, kept[k]);
    }
  }

  lemma UpdateTwice<T>(s: seq<T>, i: nat, a: T, b: T)
    requires i < |s|
    ensures s[i := a][i := b] == s[i := b]
  {
  }

  /** `VRPTW`: the instance data, and the labels kept at each customer (`Customer.labels`). */
  class Problem {
    /** Number of vehicles available; kept, not used by the subproblem. */
    const vehicles: nat
    /** Capacity, customers, the cost matrix (also the time matrix), and the duals. */
    var inst: Instance
    /** Every label created so far; a label's back-link is an index into it. */
    var arena: seq<Label>
    /** `_is_dominated` of each arena label. */
    var dead: seq<bool>
    /** `customer.labels` of each customer, as arena indices. */
    var pools: seq<seq<nat>>

    ghost predicate Valid()
      reads this
    {
      && WellFormed(inst)
      && |dead| == |arena| && |pools| == Size(inst)
      && (forall j :: 0 <= j < |arena| ==> arena[j].customer < Size(inst))
      && (forall j {:trigger Held(Size(inst), arena, j)} :: 0 <= j < |arena| ==> Held(Size(inst), arena, j))
      && forall c, k :: 0 <= c < |pools| && 0 <= k < |pools[c]| ==>
           pools[c][k] < |arena| && arena[pools[c][k]].customer == c && !dead[pools[c][k]]
    }

    /**
     * `VRPTW.__init__`, with the distance matrix given: times equal costs,
     * duals start at zero and no customer holds a label.
     */
    constructor (vehicles: nat, capacity: real, customers: seq<Customer>, costs: seq<seq<real>>)
      requires WellFormed(Instance(capacity, customers, costs, costs, seq(|customers|, _ => 0.0)))
      ensures Valid() && this.vehicles == vehicles
      ensures inst == Instance(capacity, customers, costs, costs, seq(|customers|, _ => 0.0))
      ensures arena == [] && pools == seq(|customers|, _ => [])
    {
      this.vehicles := vehicles;
      inst := Instance(capacity, customers, costs, costs, seq(|customers|, _ => 0.0));
      arena := [];
      dead := [];
      pools := seq(|customers|, _ => []);
    }

    /** The caller's assignment of new dual values; kept labels stay as they are. */
    method SetDuals(duals: seq<real>)
      requires Valid() && |duals| == Size(inst)
      modifies this`inst
      ensures Valid() && inst == old(inst).(duals := duals)
    {
      inst := inst.(duals := duals);
    }

    /**
     * `Customer.filter_dominated_by`: customer `c` keeps, in order, the
     * labels `l` does not dominate, and every label removed is flagged dead.
     */
    method FilterDominatedBy(c: nat, l: Label)
      requires Valid() && c < |pools|
      modifies this`pools, this`dead
      ensures Valid()
      ensures pools == old(pools)[c := Survivors(Exact, arena, old(pools[c]), l)]
      ensures |dead| == |old(dead)|
      ensures forall x :: 0 <= x < |dead| ==>
        (dead[x] <==> old(dead[x]) || (x in old(pools[c]) && Dominates(l, arena[x])))
    {
      var pool := pools[c];
      var labels: seq<nat> := [];
      var i := 0;
      while i < |pool|
        invariant 0 <= i <= |pool|
        invariant pools == old(pools)
        invariant labels == Survivors(Exact, arena, pool[..i], l)
        invariant |dead| == |old(dead)|
        invariant forall x :: 0 <= x < |dead| ==>
          (dead[x] <==> old(dead[x]) || (x in pool[..i] && Dominates(l, arena[x])))
      {
        var x := pool[i];
        assert pool[..i + 1] == pool[..i] + [x];
        if Dominates(l, arena[x]) {
          dead := dead[x := true];
        } else {
          labels := labels + [x];
        }
        i := i + 1;
      }
      assert pool[..i] == pool;
      SurvivorsMembership(Exact, arena, pool, l);
      pools := pools[c := labels];
      forall c2, k | 0 <= c2 < |pools| && 0 <= k < |pools[c2]|
        ensures pools[c2][k] < |arena| && arena[pools[c2][k]].customer == c2 && !dead[pools[c2][k]]
      {
        if c2 == c {
          var x := pools[c2][k];
          assert x in labels;
          var k' :| 0 <= k' < |pool| && pool[k'] == x;
        }
      }
    }

    /** `Label.is_dominated`: some label kept at the customer of `l` dominates it. */
    method IsDominated(l: Label) returns (r: bool)
      requires Valid() && l.customer < |pools|
      ensures r <==> DominatedIn(Exact, arena, pools[l.customer], l)
    {
      var pool := pools[l.customer];
      var i := 0;
      while i < |pool|
        invariant 0 <= i <= |pool|
        invariant forall k :: 0 <= k < i ==> !Dominates(arena[pool[k]], l)
      {
        if Dominates(arena[pool[i]], l) {
          return true;
        }
        i := i + 1;
      }
      return false;
    }

    /**
     * `VRPTW.update_unreachable_cs`: every customer `l` may still reach but
     * cannot be extended to becomes unreachable; `updated` tells whether
     * any did. Nothing is removed, and afterwards every customer left
     * reachable can be reached.
     */
    method UpdateUnreachable(l: Label) returns (l': Label, updated: bool)
      requires WellFormed(inst) && l.customer < Size(inst)
      ensures l' == Absorbed(inst, l)
      ensures updated <==> Failing(inst, l) != {}
      ensures Saturated(inst, l')
    {
      var n := Size(inst);
      l', updated := l, false;
      var to := 1;
      assert FailingBelow(inst, l, 1) == {};
      assert l.unreachable + {} == l.unreachable;
      while to < n
        invariant 1 <= to <= n
        invariant l' == l.(unreachable := l.unreachable + FailingBelow(inst, l, to))
        invariant updated <==> FailingBelow(inst, l, to) != {}
      {
        var fails := false;
        if to !in l'.unreachable {
          // the probe label is discarded; only its absence matters
          var probe := EagerExtend(inst, l', 0, to);
          if probe.None? {
            l' := l'.(unreachable := l'.unreachable + {to});
            updated := true;
            fails := true;
          }
        }
        assert fails <==> to !in l.unreachable && ExtendResources(inst, l.customer, ResourcesOf(l), to).None?;
        assert FailingBelow(inst, l, to + 1) == FailingBelow(inst, l, to) + (if fails then {to} else {});
        to := to + 1;
      }
      assert to == n;
    }

    /** `customer.labels.append`: label `l` gets the next arena index and joins the pool of its customer. */
    method Keep(l: Label) returns (j: nat)
      requires Valid() && l.customer < Size(inst) && l.customer in l.unreachable && l.unreachable <= All(Size(inst))
      requires l.prev.Some? ==> l.prev.value < |arena|
      modifies this`arena, this`pools, this`dead
      ensures Valid() && j == |old(arena)|
      ensures arena == old(arena) + [l] && dead == old(dead) + [false]
      ensures pools == old(pools)[l.customer := old(pools[l.customer]) + [j]]
    {
      j := |arena|;
      arena := arena + [l];
      dead := dead + [false];
      pools := pools[l.customer := pools[l.customer] + [j]];
      forall k | 0 <= k < |arena|
        ensures Held(Size(inst), arena, k)
      {
        if k < j {
          assert Held(Size(inst), old(arena), k);
        }
      }
    }

    /**
     * The part of `subproblem`'s admission that only touches customer `to`:
     * the labels `next` dominates go, `next` absorbs the customers it cannot
     * reach, and `dominated` tells whether that made a kept label dominate it.
     */
    method Settle(to: nat, next: Label) returns (upd: Label, dominated: bool)
      requires Valid() && to < Size(inst) && next.customer == to
      modifies this`pools, this`dead
      ensures Valid()
      ensures pools == old(pools)[to := Survivors(Exact, arena, old(pools[to]), next)]
      ensures |dead| == |old(dead)|
      ensures forall x :: 0 <= x < |dead| ==>
        (dead[x] <==> old(dead[x]) || (x in old(pools[to]) && Dominates(next, arena[x])))
      ensures upd == Absorbed(inst, next) && Saturated(inst, upd)
      ensures dominated <==> Failing(inst, next) != {} && DominatedIn(Exact, arena, pools[to], upd)
    {
      FilterDominatedBy(to, next);
      var updated;
      upd, updated := UpdateUnreachable(next);
      dominated := false;
      if updated {
        dominated := IsDominated(upd);
      }
    }

    /** The extension `upd` of label `from` to customer `to` is kept as a fresh label. */
    method KeepChild(from: nat, to: nat, next: Label, upd: Label) returns (j: nat)
      requires Valid() && from < |arena| && 1 <= to < Size(inst) && to !in arena[from].unreachable
      requires EagerExtend(inst, arena[from], from, to) == Some(next)
      requires upd == Absorbed(inst, next) && Saturated(inst, upd)
      modifies this`arena, this`pools, this`dead
      ensures Valid() && j == |old(arena)| && arena == old(arena) + [upd] && dead == old(dead) + [false]
      ensures pools == old(pools)[to := old(pools[to]) + [j]]
      ensures arena[j].prev == Some(from) && Fresh(inst, arena, j)
      ensures Rank(Size(inst), arena[j]) < Rank(Size(inst), arena[from])
    {
      assert Held(Size(inst), arena, from);
      FreshAppend(inst, arena, from, to, next, upd);
      j := Keep(upd);
    }

    /**
     * The undominated extension `next` of label `from` to customer `to`:
     * customer `to` drops the labels `next` dominates, `next` absorbs the
     * customers it cannot reach, and is kept unless that made it dominated.
     */
    method Admit(from: nat, to: nat, next: Label) returns (child: Option<nat>)
      requires Valid() && from < |arena| && 1 <= to < Size(inst) && to !in arena[from].unreachable
      requires EagerExtend(inst, arena[from], from, to) == Some(next)
      modifies this`arena, this`pools, this`dead
      ensures Valid() && AppendOnly(old(arena), arena)
      ensures forall x :: 0 <= x < |old(dead)| ==>
        (dead[x] <==> old(dead[x]) || (x in old(pools[to]) && Dominates(next, old(arena)[x])))
      ensures child.None? <==>
        Failing(inst, next) != {} &&
        DominatedIn(Exact, old(arena), Survivors(Exact, old(arena), old(pools[to]), next), Absorbed(inst, next))
      ensures child.None? ==>
        && arena == old(arena) && |dead| == |old(dead)|
        && pools == old(pools)[to := Survivors(Exact, old(arena), old(pools[to]), next)]
      ensures child.Some? ==>
        && child.value == |old(arena)| && arena == old(arena) + [Absorbed(inst, next)]
        && |dead| == |old(dead)| + 1 && !dead[child.value]
        && pools == old(pools)[to := Survivors(Exact, old(arena), old(pools[to]), next) + [child.value]]
      ensures child.Some? ==>
        && arena[child.value].prev == Some(from) && Fresh(inst, arena, child.value)
        && Rank(Size(inst), arena[child.value]) < Rank(Size(inst), arena[from])
    {
      var upd, dominated := Settle(to, next);
      if dominated {
        return None;
      }
      ghost var filtered := pools;
      var j := KeepChild(from, to, next, upd);
      UpdateTwice(old(pools), to, filtered[to], filtered[to] + [j]);
      child := Some(j);
    }

    /**
     * One pass of `subproblem`'s inner loop: an unreachable target is
     * skipped, so is a failed or dominated extension; otherwise the
     * extension is admitted.
     */
    method TryExtend(from: nat, to: nat) returns (child: Option<nat>)
      requires Valid() && from < |arena| && 1 <= to < Size(inst)
      modifies this`arena, this`pools, this`dead
      ensures Valid() && AppendOnly(old(arena), arena) && pools[0] == old(pools[0])
      ensures child.None? ==> arena == old(arena)
      ensures child.Some? ==>
        && child.value == |old(arena)| && |arena| == |old(arena)| + 1
        && arena[child.value].prev == Some(from) && Fresh(inst, arena, child.value)
        && Rank(Size(inst), arena[child.value]) < Rank(Size(inst), arena[from])
      ensures Snapshot(arena, pools, dead) == Try(inst, Snapshot(old(arena), old(pools), old(dead)), from, to)
    {
      if to in arena[from].unreachable {
        return None;
      }
      var ext := EagerExtend(inst, arena[from], from, to);
      if ext.None? {
        return None;
      }
      var dominated := IsDominated(ext.value);
      if dominated {
        return None;
      }
      ghost var s := Snapshot(arena, pools, dead);
      child := Admit(from, to, ext.value);
      TryAdmitted(inst, s, from, to, ext.value, Snapshot(arena, pools, dead), child);
    }

    /**
     * One target customer of `subproblem`'s inner loop, with the admitted
     * label queued: at most one label is pushed, of lower rank than `from`,
     * and the new state, the one `Try` computes, extends the chain `trace`.
     */
    method Push(from: nat, to: nat, queue: seq<nat>, ghost ranks: seq<nat>, ghost rf: nat, ghost root: nat,
                ghost trace: seq<Snapshot>)
      returns (queue': seq<nat>, ghost ranks': seq<nat>, ghost kid: seq<nat>, ghost trace': seq<Snapshot>)
      requires Valid() && root <= from < |arena| && 1 <= to < Size(inst) && FreshFrom(inst, arena, root)
      requires RanksBound(Size(inst), arena, queue, ranks) && Rank(Size(inst), arena[from]) <= rf
      requires |trace| == to + 1 && trace[to] == Snapshot(arena, pools, dead) && TryChained(inst, from, trace)
      modifies this`arena, this`pools, this`dead
      ensures Valid() && AppendOnly(old(arena), arena) && pools[0] == old(pools[0]) && FreshFrom(inst, arena, root)
      ensures RanksBound(Size(inst), arena, queue', ranks')
      ensures |kid| <= 1 && ranks' == ranks + kid && forall k :: 0 <= k < |kid| ==> kid[k] < rf
      ensures queue' == queue + Span(|old(arena)|, |arena|) && |arena| == |old(arena)| + |kid|
      ensures trace' == trace + [Snapshot(arena, pools, dead)] && TryChained(inst, from, trace')
    {
      var n := Size(inst);
      ghost var prior := arena;
      var child := TryExtend(from, to);
      TryChainedSnoc(inst, from, to, trace, Snapshot(arena, pools, dead));
      trace' := trace + [Snapshot(arena, pools, dead)];
      AppendOnlyGrows(prior, arena);
      GrowsKeepsRanks(n, prior, arena, queue, ranks);
      FreshFromAppend(inst, prior, arena, root);
      queue', ranks', kid := Enqueue(n, arena, |prior|, child, queue, ranks, rf);
    }

    /**
     * The body of `subproblem`'s loop for a popped live label `from`: every
     * customer but the depot is tried in index order, each admitted label
     * queued behind the old entries in creation order. At most one label
     * per customer is pushed, each of lower rank than `from`; `trace` leads
     * from the old state to the new one by `Try` on customers `0, 1, ...`.
     */
    method Expand(from: nat, queue: seq<nat>, ghost ranks: seq<nat>, ghost root: nat)
      returns (queue': seq<nat>, ghost ranks': seq<nat>, ghost kids: seq<nat>, ghost trace: seq<Snapshot>)
      requires Valid() && root <= from < |arena| && FreshFrom(inst, arena, root)
      requires RanksBound(Size(inst), arena, queue, ranks) && forall k :: 0 <= k < |queue| ==> root <= queue[k]
      modifies this`arena, this`pools, this`dead
      ensures Valid() && AppendOnly(old(arena), arena) && pools[0] == old(pools[0]) && FreshFrom(inst, arena, root)
      ensures RanksBound(Size(inst), arena, queue', ranks') && forall k :: 0 <= k < |queue'| ==> root <= queue'[k]
      ensures ranks' == ranks + kids && |kids| <= Size(inst)
      ensures forall k :: 0 <= k < |kids| ==> kids[k] < Rank(Size(inst), old(arena[from]))
      ensures queue' == queue + Span(|old(arena)|, |arena|) && |arena| == |old(arena)| + |kids|
      ensures |trace| == Size(inst) + 1 && trace[0] == Snapshot(old(arena), old(pools), old(dead))
      ensures trace[Size(inst)] == Snapshot(arena, pools, dead) && TryChained(inst, from, trace)
    {
      var n := Size(inst);
      queue', ranks', kids := queue, ranks, [];
      ghost var start := Snapshot(arena, pools, dead);
      ghost var pushed: seq<nat> := [];
      ghost var rf := Rank(n, arena[from]);
      assert ranks + [] == ranks && queue + [] == queue;
      trace := [start, start];
      var to := 1;
      while to < n
        invariant 1 <= to <= n && |kids| < to
        invariant Valid() && Size(inst) == n && AppendOnly(start.arena, arena) && FreshFrom(inst, arena, root)
        invariant pools[0] == old(pools[0]) && arena[from] == start.arena[from]
        invariant RanksBound(n, arena, queue', ranks') && forall k :: 0 <= k < |queue'| ==> root <= queue'[k]
        invariant ranks' == ranks + kids && forall k :: 0 <= k < |kids| ==> kids[k] < rf
        invariant queue' == queue + pushed && pushed == Span(|start.arena|, |arena|) && |arena| == |start.arena| + |kids|
        invariant |trace| == to + 1 && trace[0] == start && trace[to] == Snapshot(arena, pools, dead)
        invariant TryChained(inst, from, trace)
      {
        ghost var prior := arena;
        ghost var kid;
        queue', ranks', kid, trace := Push(from, to, queue', ranks', rf, root, trace);
        AppendOnlyTransitive(start.arena, prior, arena);
        SpanSplit(|start.arena|, |prior|, |arena|);
        ConcatAssoc(queue, pushed, Span(|prior|, |arena|));
        ConcatAssoc(ranks, kids, kid);
        pushed := pushed + Span(|prior|, |arena|);
        kids := kids + kid;
        to := to + 1;
      }
    }

    /**
     * One pass of `subproblem`'s loop: the first queued label `from` of
     * least customer is popped; a dead one is dropped and changes nothing, a
     * live one is expanded by `Try` on each customer in turn. The new state
     * and queue are `SubproblemPass` of the old ones, and the queue's mass
     * drops either way.
     */
    method Round(queue: seq<nat>, ghost ranks: seq<nat>, ghost root: nat, n: nat)
      returns (from: nat, queue': seq<nat>, ghost ranks': seq<nat>)
      requires Valid() && n == Size(inst) && queue != [] && FreshFrom(inst, arena, root)
      requires RanksBound(n, arena, queue, ranks) && forall k :: 0 <= k < |queue| ==> root <= queue[k]
      modifies this`arena, this`pools, this`dead
      ensures Valid() && AppendOnly(old(arena), arena) && pools[0] == old(pools[0]) && FreshFrom(inst, arena, root)
      ensures RanksBound(n, arena, queue', ranks') && forall k :: 0 <= k < |queue'| ==> root <= queue'[k]
      ensures Mass(n + 1, ranks') < Mass(n + 1, ranks)
      ensures from == queue[MinCustomerPos(old(arena), queue)]
      ensures Stage(Snapshot(arena, pools, dead), queue') == SubproblemPass(inst, Stage(Snapshot(old(arena), old(pools), old(dead)), queue))
    {
      ghost var before := Snapshot(arena, pools, dead);
      ghost var restRanks, r;
      from, queue', restRanks, r := PopMin(n, arena, queue, ranks);
      AboveRemove(queue, queue', root, from);
      ghost var rest := queue';
      ranks' := restRanks;
      if dead[from] {
        SpanUnit(|arena|);
        assert rest + [] == rest;
        RoundIsSubproblemPass(inst, before, queue, from, rest, before, queue', []);
        return;
      }
      ghost var kids, trace;
      queue', ranks', kids, trace := Expand(from, queue', restRanks, root);
      PopAndPush(n, ranks, restRanks, kids, r, ranks');
      RoundIsSubproblemPass(inst, before, queue, from, rest, Snapshot(arena, pools, dead), queue', trace);
    }

    /**
     * The loop of `subproblem` from label `root`: labels are popped least
     * customer first; a dead one is skipped, a live one is expanded. The
     * loop ends because every pushed label has a smaller reachable set than
     * the label it extends.
     */
    method Search(root: nat) returns (ghost run: seq<Stage>)
      requires Valid() && root < |arena| && FreshFrom(inst, arena, root)
      modifies this`arena, this`pools, this`dead
      ensures Valid() && AppendOnly(old(arena), arena) && pools[0] == old(pools[0]) && FreshFrom(inst, arena, root)
      ensures |run| > 0 && run[0] == Stage(Snapshot(old(arena), old(pools), old(dead)), [root])
      ensures run[|run| - 1] == Stage(Snapshot(arena, pools, dead), [])
      ensures SubproblemRun(inst, run)
    {
      var n := Size(inst);
      ghost var start := arena;
      var queue: seq<nat> := [root];
      ghost var ranks: seq<nat> := [Rank(n, arena[root])];
      run := [Stage(Snapshot(arena, pools, dead), queue)];
      while queue != []
        invariant Valid() && Size(inst) == n && AppendOnly(start, arena) && FreshFrom(inst, arena, root)
        invariant pools[0] == old(pools[0])
        invariant RanksBound(n, arena, queue, ranks) && forall k :: 0 <= k < |queue| ==> root <= queue[k]
        invariant |run| > 0 && run[0] == Stage(Snapshot(old(arena), old(pools), old(dead)), [root])
        invariant run[|run| - 1] == Stage(Snapshot(arena, pools, dead), queue) && SubproblemRun(inst, run)
        decreases Mass(n + 1, ranks)
      {
        ghost var before := arena;
        var from;
        from, queue, ranks := Round(queue, ranks, root, n);
        AppendOnlyTransitive(start, before, arena);
        SubproblemRunSnoc(inst, run, Stage(Snapshot(arena, pools, dead), queue));
        run := run + [Stage(Snapshot(arena, pools, dead), queue)];
      }
    }

    /**
     * `VRPTW.subproblem`: a fresh depot label joins the depot's pool and the
     * search runs from it. Labels kept by earlier runs stay; every label this
     * run adds is fresh and links back into this run.
     */
    method Subproblem() returns (ghost root: nat, ghost run: seq<Stage>)
      requires Valid()
      modifies this`arena, this`pools, this`dead
      ensures Valid() && AppendOnly(old(arena), arena)
      ensures |run| > 0 && run[|run| - 1] == Stage(Snapshot(arena, pools, dead), []) && SubproblemRun(inst, run)
      ensures run[0] == Stage(Snapshot(old(arena) + [RootLabel()], old(pools)[0 := old(pools[0]) + [root]], old(dead) + [false]), [root])
      ensures root == |old(arena)| && root < |arena| && arena[root] == RootLabel()
      ensures pools[0] == old(pools[0]) + [root]
      ensures FreshFrom(inst, arena, root) && Linked(arena)
      ensures forall j :: root <= j < |arena| ==>
        && PathOf(arena, j)[0] == 0 && NoRepeats(PathOf(arena, j))
        && (forall k :: 0 <= k < |PathOf(arena, j)| ==> PathOf(arena, j)[k] < Size(inst))
        && Replay(inst, PathOf(arena, j)) == Some(ResourcesOf(arena[j]))
    {
      var start := Keep(RootLabel());
      run := Search(start);
      root := start;
      HeldLinked(Size(inst), arena);
      forall j | root <= j < |arena|
        ensures && PathOf(arena, j)[0] == 0 && NoRepeats(PathOf(arena, j))
                && (forall k :: 0 <= k < |PathOf(arena, j)| ==> PathOf(arena, j)[k] < Size(inst))
                && Replay(inst, PathOf(arena, j)) == Some(ResourcesOf(arena[j]))
      {
        FreshChain(inst, arena, root, j);
      }
    }
  }

  /** Popping an entry keeps every queued index at or after `root`. */
  lemma AboveRemove(queue: seq<nat>, rest: seq<nat>, root: nat, from: nat)
    requires multiset(rest) + multiset{from} == multiset(queue)
    requires forall k :: 0 <= k < |queue| ==> root <= queue[k]
    ensures forall k :: 0 <= k < |rest| ==> root <= rest[k]
  {
    forall k | 0 <= k < |rest|
      ensures root <= rest[k]
    {
      assert rest[k] in multiset(queue);
      var j :| 0 <= j < |queue| && queue[j] == rest[k];
    }
  }
}
