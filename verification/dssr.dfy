/**
 * The decremental state-space relaxation (`DSSR_ESPPRC`): solve the relaxed
 * problem, mark the customers the returned route repeats as critical, and
 * solve again until the route repeats no customer.
 */
module Dssr {
  import opened Wrappers
  import opened Graph
  import opened Labels
  import opened Chains
  import opened Espprc

  /** The elements occurring at least twice in `items`. */
  ghost function Duplicates(items: seq<nat>): set<nat> {
    set x | x in items && multiset(items)[x] >= 2
  }

  /** The elements occurring in `items`: what `find_duplicates` has seen. */
  ghost function Elements(items: seq<nat>): set<nat> {
    set x | x in items
  }

  /**
   * `find_duplicates`: one pass that remembers what it has seen once and
   * what it has seen again.
   */
  method FindDuplicates(items: seq<nat>) returns (twice: set<nat>)
    ensures twice == Duplicates(items)
  {
    var seen: set<nat> := {};
    twice := {};
    var i := 0;
    while i < |items|
      invariant 0 <= i <= |items|
      invariant seen == Elements(items[..i])
      invariant twice == Duplicates(items[..i])
    {
      var item := items[i];
      assert items[..i + 1] == items[..i] + [item];
      if item in seen {
        twice := twice + {item};
      } else {
        seen := seen + {item};
      }
      i := i + 1;
    }
    assert items[..i] == items;
  }

  /** No element repeats exactly when there is no duplicate. */
  lemma {:induction false} NoDuplicatesIffNoRepeats(items: seq<nat>)
    ensures Duplicates(items) == {} <==> NoRepeats(items)
  {
    if NoRepeats(items) {
      forall x | x in items
        ensures multiset(items)[x] < 2
      {
        CountOfDistinct(items, x);
      }
    } else {
      var a, b :| 0 <= a < b < |items| && items[a] == items[b];
      TwoPositionsCount(items, a, b);
      assert items[a] in Duplicates(items);
    }
  }

  /** In a sequence without repeats every element occurs once. */
  lemma {:induction false} CountOfDistinct(items: seq<nat>, x: nat)
    requires NoRepeats(items)
    ensures multiset(items)[x] <= 1
    decreases |items|
  {
    if items != [] {
      var last := |items| - 1;
      assert items == items[..last] + [items[last]];
      CountOfDistinct(items[..last], x);
      if x == items[last] {
        assert x !in items[..last];
        assert multiset(items[..last])[x] == 0;
      }
    }
  }

  /** Two positions holding the same element make it occur twice. */
  lemma TwoPositionsCount(items: seq<nat>, a: nat, b: nat)
    requires a < b < |items| && items[a] == items[b]
    ensures multiset(items)[items[a]] >= 2
  {
    var x := items[a];
    assert items == items[..a] + [x] + items[a + 1..b] + [x] + items[b + 1..];
  }

  datatype DssrError = Relaxed(error: SolveError) | OutOfFuel

  /**
   * What the relaxed `solve` returns on success: a route that starts and
   * ends at the depot, stays within the instance, replays to its cost, and
   * is the path and cost of the first least-cost label of the depot pool
   * that a run of `solve`'s loop from the depot label left.
   */
  ghost predicate DepotRoute(e: Engine, route: Route)
    reads e
  {
    var p := route.path;
    && e.Valid()
    && |p| >= 2 && p[0] == 0 && p[|p| - 1] == 0
    && (forall k :: 0 <= k < |p| ==> p[k] < Size(e.inst))
    && Replay(e.inst, p).Some? && Replay(e.inst, p).value.cost == route.cost
    && (exists best :: best in e.pools[0] && route == Route(PathOf(e.arena, best), e.arena[best].cost)
         && FirstLeastCost(e.arena, e.pools[0], best))
    && exists run :: |run| > 0 && SolveRun(e.kind, e.inst, e.nCustomers, e.criticalCs, run)
         && run[0] == Stage(Snapshot([DepotLabel()], seq(Size(e.inst), _ => []), [false]), [0])
         && run[|run| - 1] == Stage(Snapshot(e.arena, e.pools, e.dead), [])
  }

  /**
   * One round of `DSSR_ESPPRC.solve`: the relaxed search, then the
   * customers its route repeats before returning to the depot.
   */
  method Attempt(e: Engine) returns (relaxed: Result<Route, SolveError>, duplicates: set<nat>)
    requires WellFormed(e.inst) && e.kind == Dssr
    modifies e
    ensures e.inst == old(e.inst) && e.criticalCs == old(e.criticalCs) && e.Valid()
    ensures relaxed.Failure? <==> e.pools[0] == []
    ensures relaxed.Success? ==>
      && DepotRoute(e, relaxed.value)
      && |relaxed.value.path| >= 2
      && duplicates == Duplicates(relaxed.value.path[..|relaxed.value.path| - 1])
  {
    ghost var best, run;
    relaxed, best, run := e.Solve();
    duplicates := {};
    if relaxed.Success? {
      var path := relaxed.value.path;
      duplicates := FindDuplicates(path[..|path| - 1]);
      assert best in e.pools[0];
    }
  }

  /**
   * `DSSR_ESPPRC.solve` on an engine built with the decremental labels: at
   * most `fuel` rounds of the relaxed search. A route that repeats no
   * customer before its return to the depot is returned; otherwise its
   * repeated customers join the critical set and the search restarts.
   */
  method SolveDssr(e: Engine, fuel: nat) returns (r: Result<Route, DssrError>)
    requires WellFormed(e.inst) && e.kind == Dssr
    modifies e
    ensures e.inst == old(e.inst) && old(e.criticalCs) <= e.criticalCs && (fuel > 0 ==> e.Valid())
    ensures r.Success? ==> DepotRoute(e, r.value) && Duplicates(r.value.path[..|r.value.path| - 1]) == {}
    ensures r.Failure? && r.error.Relaxed? ==> e.Valid() && e.pools[0] == []
  {
    var rounds := 0;
    while rounds < fuel
      invariant WellFormed(e.inst) && e.kind == Dssr && e.inst == old(e.inst) && old(e.criticalCs) <= e.criticalCs
      invariant rounds > 0 ==> e.Valid()
      decreases fuel - rounds
    {
      var relaxed, duplicates := Attempt(e);
      if relaxed.Failure? {
        return Failure(Relaxed(relaxed.error));
      }
      if duplicates == {} {
        return Success(relaxed.value);
      }
      e.criticalCs := e.criticalCs + duplicates;
      rounds := rounds + 1;
    }
    return Failure(OutOfFuel);
  }
}
