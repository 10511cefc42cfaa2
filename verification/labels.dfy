/**
 * Labels of the labelling algorithms and the dominance relation between
 * them. A label is a value; the engine keeps its labels in an arena and
 * `prev` is the arena index of the label it extends.
 */
module Labels {
  import opened Wrappers

  /**
   * Which engine a label belongs to. The exact engine uses only the
   * unreachable set; the state-space relaxation adds a visit counter; the
   * decremental relaxation adds the set of critical customers visited.
   */
  datatype Kind = Exact | Ssr | Dssr

  /**
   * `unreachable` holds the customers this partial path can no longer
   * reach, its own visited customers included. `visited` (`n_visited`) and
   * `critical` (`critical_visited`) stay `0` and `{}` for the exact engine.
   */
  datatype Label = Label(
    customer: nat,
    cost: real,
    load: real,
    time: real,
    unreachable: set<nat>,
    prev: Option<nat>,
    visited: nat,
    critical: set<nat>)

  /**
   * A label built by the constructor of the engine's label class: its own
   * customer is its only unreachable customer, no customer counted as
   * visited and no critical customer visited yet.
   */
  function NewLabel(customer: nat, cost: real, load: real, time: real, prev: Option<nat>): (l: Label)
    ensures l.customer == customer && l.prev == prev
    ensures l.unreachable == {customer}
    ensures l.visited == 0 && l.critical == {}
  {
    Label(customer, cost, load, time, {customer}, prev, 0, {})
  }

  /** The label the search starts from: at the depot, no resources used, nothing unreachable. */
  function DepotLabel(): (l: Label)
    ensures l.customer == 0 && l.prev == None
    ensures l.cost == 0.0 && l.load == 0.0 && l.time == 0.0
    ensures l.unreachable == {} && l.visited == 0 && l.critical == {}
  {
    NewLabel(0, 0.0, 0.0, 0.0, None).(unreachable := {})
  }

  /**
   * `Label.dominates`: every resource of `a` is at most that of `b` and at
   * least one of them differs, the unreachable sets being compared by
   * inclusion and, for the difference, by size.
   */
  predicate Dominates(a: Label, b: Label) {
    if a.cost <= b.cost && a.load <= b.load && a.time <= b.time && a.unreachable <= b.unreachable then
      a.cost != b.cost || a.load != b.load || a.time != b.time || |a.unreachable| != |b.unreachable|
    else
      false
  }

  /** Every resource of `a` is at most the same resource of `b`. */
  predicate NoWorse(a: Label, b: Label) {
    a.cost <= b.cost && a.load <= b.load && a.time <= b.time && a.unreachable <= b.unreachable
  }

  /** `a` and `b` use exactly the same resources. */
  predicate SameResources(a: Label, b: Label) {
    a.cost == b.cost && a.load == b.load && a.time == b.time && a.unreachable == b.unreachable
  }

  /** A subset of the same size is the whole set. */
  lemma SubsetOfSameSize(s: set<nat>, t: set<nat>)
    requires s <= t && |s| == |t|
    ensures s == t
  {
    assert t == s + (t - s);
    assert s * (t - s) == {};
    assert |t - s| == 0;
  }

  lemma SubsetSize(s: set<nat>, t: set<nat>)
    requires s <= t
    ensures |s| <= |t|
  {
    assert t == s + (t - s);
  }

  /**
   * Dominance is "no worse in every resource and not the same resources":
   * the size test on the unreachable sets is exact because a subset of the
   * same size is the same set.
   */
  lemma DominatesIffStrictlyBetter(a: Label, b: Label)
    ensures Dominates(a, b) <==> NoWorse(a, b) && !SameResources(a, b)
  {
    if NoWorse(a, b) && |a.unreachable| == |b.unreachable| {
      SubsetOfSameSize(a.unreachable, b.unreachable);
    }
  }

  /** No label dominates itself, nor a label with the same resources, and dominance is never mutual. */
  lemma DominanceIrreflexiveAsymmetric(a: Label, b: Label)
    ensures SameResources(a, b) ==> !Dominates(a, b)
    ensures Dominates(a, b) ==> !Dominates(b, a)
  {
    DominatesIffStrictlyBetter(a, b);
    DominatesIffStrictlyBetter(b, a);
    if NoWorse(a, b) && NoWorse(b, a) {
      assert a.unreachable == b.unreachable;
    }
  }

  lemma DominanceTransitive(a: Label, b: Label, c: Label)
    requires Dominates(a, b) && Dominates(b, c)
    ensures Dominates(a, c)
  {
    SubsetSize(a.unreachable, b.unreachable);
    SubsetSize(b.unreachable, c.unreachable);
  }

  /** `SSR_Label.dominates`: the base test and a visit count no larger. */
  function SsrDominates(a: Label, b: Label): (r: bool)
    ensures r ==> Dominates(a, b) && a.visited <= b.visited
  {
    Dominates(a, b) && a.visited <= b.visited
  }

  /** `DSSR_Label.dominates`: the relaxed test and fewer critical customers visited. */
  function DssrDominates(a: Label, b: Label): (r: bool)
    ensures r ==> SsrDominates(a, b) && a.critical <= b.critical
  {
    SsrDominates(a, b) && a.critical <= b.critical
  }

  /**
   * SSR dominance holds exactly when `a` is no worse than `b` in every
   * resource and in the visit count, and differs from it in a resource: a
   * smaller count alone never makes a label dominate.
   */
  lemma SsrDominatesIff(a: Label, b: Label)
    ensures SsrDominates(a, b) <==> NoWorse(a, b) && !SameResources(a, b) && a.visited <= b.visited
  {
    DominatesIffStrictlyBetter(a, b);
  }

  /**
   * DSSR dominance holds exactly when `a` is no worse than `b` in every
   * resource, in the visit count and in the critical customers visited, and
   * differs from it in a resource.
   */
  lemma DssrDominatesIff(a: Label, b: Label)
    ensures DssrDominates(a, b) <==>
      NoWorse(a, b) && !SameResources(a, b) && a.visited <= b.visited && a.critical <= b.critical
  {
    DominatesIffStrictlyBetter(a, b);
  }

  /** The dominance test of the label class of `kind`. */
  function DominatesBy(kind: Kind, a: Label, b: Label): bool {
    match kind
    case Exact => Dominates(a, b)
    case Ssr => SsrDominates(a, b)
    case Dssr => DssrDominates(a, b)
  }

  /**
   * For every label class, dominance implies base dominance, is
   * irreflexive and asymmetric, and is transitive.
   */
  lemma DominatesByIsStrictOrder(kind: Kind, a: Label, b: Label, c: Label)
    ensures DominatesBy(kind, a, b) ==> Dominates(a, b)
    ensures !DominatesBy(kind, a, a)
    ensures DominatesBy(kind, a, b) ==> !DominatesBy(kind, b, a)
    ensures DominatesBy(kind, a, b) && DominatesBy(kind, b, c) ==> DominatesBy(kind, a, c)
  {
    DominanceIrreflexiveAsymmetric(a, a);
    DominanceIrreflexiveAsymmetric(a, b);
    if DominatesBy(kind, a, b) && DominatesBy(kind, b, c) {
      DominanceTransitive(a, b, c);
    }
  }
}
