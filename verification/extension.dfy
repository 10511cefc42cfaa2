/**
 * Label extension along one arc: the resource update with its capacity and
 * time-window checks, and the three label classes' `extended_label`.
 */
module Extension {
  import opened Wrappers
  import opened Graph
  import opened Labels

  /** The resources a label carries along a path. */
  datatype Resources = Resources(cost: real, load: real, time: real)

  function ResourcesOf(l: Label): Resources {
    Resources(l.cost, l.load, l.time)
  }

  /** Start of service at `to` when leaving `from` at `time`: never before the window opens. */
  function Arrival(inst: Instance, from: nat, time: real, to: nat): real
    requires WellFormed(inst) && from < Size(inst) && to < Size(inst)
  {
    Max(time + inst.times[from][to], inst.customers[to].earliest)
  }

  /**
   * The resource update of `extended_label`: the reduced cost grows by the
   * arc cost minus the dual of the customer left, the load by the demand
   * served, and service starts at the arrival time. `None` exactly when the
   * capacity or the time window of `to` is exceeded.
   */
  function ExtendResources(inst: Instance, from: nat, res: Resources, to: nat): (r: Option<Resources>)
    requires WellFormed(inst) && from < Size(inst) && to < Size(inst)
    ensures r.None? <==>
      res.load + inst.customers[to].demand > inst.capacity || Arrival(inst, from, res.time, to) > inst.customers[to].latest
    ensures r.Some? ==>
      && r.value.cost == res.cost + inst.costs[from][to] - inst.duals[from]
      && r.value.load == res.load + inst.customers[to].demand
      && r.value.load <= inst.capacity
      && res.time + inst.times[from][to] <= r.value.time
      && inst.customers[to].earliest <= r.value.time <= inst.customers[to].latest
  {
    var cost := res.cost + inst.costs[from][to] - inst.duals[from];
    var load := res.load + inst.customers[to].demand;
    if load > inst.capacity then None
    else
      var time := Arrival(inst, from, res.time, to);
      if time > inst.customers[to].latest then None
      else Some(Resources(cost, load, time))
  }

  /** Service starts at the later of the arrival over the arc and the opening of the window. */
  lemma ExtendedTime(inst: Instance, from: nat, res: Resources, to: nat)
    requires WellFormed(inst) && from < Size(inst) && to < Size(inst)
    requires ExtendResources(inst, from, res, to).Some?
    ensures var t := ExtendResources(inst, from, res, to).value.time;
      && res.time + inst.times[from][to] <= t && inst.customers[to].earliest <= t
      && (t == res.time + inst.times[from][to] || t == inst.customers[to].earliest)
  {
  }

  /**
   * `ESPPRC.extended_label`: a new label at `to` whose back-link is the
   * arena index of `from`. Its unreachable set is its own customer plus all
   * customers when `to` is the depot, or plus the unreachable set of `from`
   * otherwise.
   */
  function BaseExtend(inst: Instance, from: Label, fromIdx: nat, to: nat): (r: Option<Label>)
    requires WellFormed(inst) && from.customer < Size(inst) && to < Size(inst)
    ensures r.None? <==> ExtendResources(inst, from.customer, ResourcesOf(from), to).None?
    ensures r.Some? ==>
      && ResourcesOf(r.value) == ExtendResources(inst, from.customer, ResourcesOf(from), to).value
      && r.value.customer == to && r.value.prev == Some(fromIdx)
      && r.value.unreachable == {to} + (if to == 0 then All(Size(inst)) else from.unreachable)
      && r.value.visited == 0 && r.value.critical == {}
  {
    match ExtendResources(inst, from.customer, ResourcesOf(from), to)
    case None => None
    case Some(res) =>
      var made := NewLabel(to, res.cost, res.load, res.time, Some(fromIdx));
      if to == 0 then Some(made.(unreachable := made.unreachable + All(Size(inst))))
      else Some(made.(unreachable := made.unreachable + from.unreachable))
  }

  /**
   * `SSR_SPPRC.extended_label`, with the customer bound `nCustomers` given
   * to the engine: the base label with the visit count of `from` plus one,
   * rejected when that count exceeds `nCustomers`.
   */
  function SsrExtend(inst: Instance, nCustomers: nat, from: Label, fromIdx: nat, to: nat): (r: Option<Label>)
    requires WellFormed(inst) && from.customer < Size(inst) && to < Size(inst)
    ensures r.None? <==> BaseExtend(inst, from, fromIdx, to).None? || from.visited + 1 > nCustomers
    ensures r.Some? ==>
      && r.value.visited == from.visited + 1 <= nCustomers
      && r.value.(visited := 0) == BaseExtend(inst, from, fromIdx, to).value
  {
    match BaseExtend(inst, from, fromIdx, to)
    case None => None
    case Some(made) =>
      var visited := from.visited + 1;
      if visited > nCustomers then None
      else Some(made.(visited := visited))
  }

  /**
   * `DSSR_ESPPRC.extended_label` with the critical customers visited
   * inherited from `from`: an extension to a critical customer already
   * visited is rejected, one to a critical customer not yet visited records
   * it, and one to any other customer keeps the inherited set.
   */
  function DssrExtend(inst: Instance, nCustomers: nat, criticalCs: set<nat>, from: Label, fromIdx: nat, to: nat): (r: Option<Label>)
    requires WellFormed(inst) && from.customer < Size(inst) && to < Size(inst)
    ensures r.None? <==>
      SsrExtend(inst, nCustomers, from, fromIdx, to).None? || (to in criticalCs && to in from.critical)
    ensures r.Some? ==>
      && r.value.(critical := {}) == SsrExtend(inst, nCustomers, from, fromIdx, to).value
      && r.value.critical == from.critical + (if to in criticalCs then {to} else {})
  {
    match SsrExtend(inst, nCustomers, from, fromIdx, to)
    case None => None
    case Some(made) =>
      var inherited := made.(critical := from.critical);
      if to in criticalCs then
        if to in inherited.critical then None
        else Some(inherited.(critical := inherited.critical + {to}))
      else Some(inherited)
  }

  /**
   * `DSSR_ESPPRC.extended_label` as written: the new label's critical set
   * starts empty instead of being inherited, so the test for a revisited
   * critical customer always passes.
   */
  function DssrExtendAsWritten(inst: Instance, nCustomers: nat, criticalCs: set<nat>, from: Label, fromIdx: nat, to: nat): (r: Option<Label>)
    requires WellFormed(inst) && from.customer < Size(inst) && to < Size(inst)
    ensures r.None? <==> SsrExtend(inst, nCustomers, from, fromIdx, to).None?
    ensures r.Some? ==> r.value.critical == (if to in criticalCs then {to} else {})
  {
    match SsrExtend(inst, nCustomers, from, fromIdx, to)
    case None => None
    case Some(made) =>
      if to in criticalCs then
        if to in made.critical then None
        else Some(made.(critical := made.critical + {to}))
      else Some(made)
  }

  /**
   * A critical customer already visited on the path of `from` is reached
   * again by the extension as written, while the inheriting extension
   * rejects it.
   */
  lemma DssrRevisitAcceptedAsWritten(inst: Instance, nCustomers: nat, criticalCs: set<nat>, from: Label, fromIdx: nat, to: nat)
    requires WellFormed(inst) && from.customer < Size(inst) && to < Size(inst)
    requires SsrExtend(inst, nCustomers, from, fromIdx, to).Some?
    requires to in criticalCs && to in from.critical
    ensures DssrExtendAsWritten(inst, nCustomers, criticalCs, from, fromIdx, to).Some?
    ensures DssrExtend(inst, nCustomers, criticalCs, from, fromIdx, to).None?
  {
  }

  /** An outcome of Python code that may raise. */
  datatype Raised<+T> = Returned(value: T) | AttributeError

  /**
   * `SSR_SPPRC.extended_label` as shipped: the engine builds plain labels,
   * which have no `n_visited`, and the engine has no `n_customers`; reading
   * either raises as soon as the base extension succeeds.
   */
  function SsrExtendAsWritten(inst: Instance, from: Label, fromIdx: nat, to: nat): (r: Raised<Option<Label>>)
    requires WellFormed(inst) && from.customer < Size(inst) && to < Size(inst)
    ensures r.Returned? ==> r.value.None?
    ensures r.AttributeError? <==> BaseExtend(inst, from, fromIdx, to).Some?
  {
    match BaseExtend(inst, from, fromIdx, to)
    case None => Returned(None)
    case Some(_) => AttributeError
  }

  /** A depot and one customer that the depot label can reach. */
  function TwoNodeInstance(): (inst: Instance)
    ensures WellFormed(inst) && Size(inst) == 2
  {
    Instance(
      10.0,
      [Customer(0, 0.0, 0.0, 20.0), Customer(1, 5.0, 0.0, 20.0)],
      [[0.0, 1.0], [1.0, 0.0]],
      [[0.0, 1.0], [1.0, 0.0]],
      [0.0, 0.0])
  }

  /**
   * The very first extension from the depot label raises as shipped, while
   * the relaxation with the customer bound produces a label with one visit.
   */
  lemma SsrFirstExtensionRaises()
    ensures SsrExtendAsWritten(TwoNodeInstance(), DepotLabel(), 0, 1).AttributeError?
    ensures SsrExtend(TwoNodeInstance(), 1, DepotLabel(), 0, 1).Some?
    ensures SsrExtend(TwoNodeInstance(), 1, DepotLabel(), 0, 1).value.visited == 1
  {
  }

  /**
   * The extension used by the engine of label class `kind`. Whatever the
   * class, a produced label satisfies the base resource update and the base
   * unreachable-set rule, and counts its visits except in the exact engine.
   */
  function Extend(kind: Kind, inst: Instance, nCustomers: nat, criticalCs: set<nat>, from: Label, fromIdx: nat, to: nat): (r: Option<Label>)
    requires WellFormed(inst) && from.customer < Size(inst) && to < Size(inst)
    ensures BaseExtend(inst, from, fromIdx, to).None? ==> r.None?
    ensures r.Some? ==>
      && ResourcesOf(r.value) == ExtendResources(inst, from.customer, ResourcesOf(from), to).value
      && r.value.customer == to && r.value.prev == Some(fromIdx)
      && r.value.unreachable == {to} + (if to == 0 then All(Size(inst)) else from.unreachable)
      && r.value.visited == (if kind == Exact then 0 else from.visited + 1)
      && (kind != Exact ==> r.value.visited <= nCustomers)
  {
    match kind
    case Exact => BaseExtend(inst, from, fromIdx, to)
    case Ssr => SsrExtend(inst, nCustomers, from, fromIdx, to)
    case Dssr => DssrExtend(inst, nCustomers, criticalCs, from, fromIdx, to)
  }
}
