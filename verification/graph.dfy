/**
 * The graph of a routing instance: customers (the depot is customer 0),
 * the capacity of a vehicle, the arc cost and arc time matrices and the
 * dual value of every customer. Customers are referred to by their index.
 */
module Graph {

  /** A customer of the instance: `time_window` is `[earliest, latest]`. */
  datatype Customer = Customer(index: nat, demand: real, earliest: real, latest: real)

  datatype Instance = Instance(
    capacity: real,
    customers: seq<Customer>,
    costs: seq<seq<real>>,
    times: seq<seq<real>>,
    duals: seq<real>)

  /** Number of customers, depot included. */
  function Size(inst: Instance): nat {
    |inst.customers|
  }

  /**
   * What the engines assume of their input: a depot, every customer stored
   * at its own index, square matrices and one dual per customer.
   */
  predicate WellFormed(inst: Instance) {
    && |inst.customers| >= 1
    && (forall i :: 0 <= i < |inst.customers| ==> inst.customers[i].index == i)
    && |inst.costs| == |inst.customers|
    && |inst.times| == |inst.customers|
    && |inst.duals| == |inst.customers|
    && (forall i :: 0 <= i < |inst.costs| ==> |inst.costs[i]| == |inst.customers|)
    && (forall i :: 0 <= i < |inst.times| ==> |inst.times[i]| == |inst.customers|)
  }

  /** The set of all customer indices `0 .. n-1`. */
  function All(n: nat): (s: set<nat>)
    ensures forall c: nat :: c in s <==> c < n
    ensures |s| == n
  {
    if n == 0 then {} else
      var s := All(n - 1) + {n - 1};
      assert n - 1 !in All(n - 1);
      s
  }

  function Max(a: real, b: real): real {
    if a >= b then a else b
  }

  /** `Customer.__lt__`: customers are ordered by index. */
  predicate CustomerLess(a: Customer, b: Customer) {
    a.index < b.index
  }

  /** `Customer.__hash__` (and `__index__`): a customer hashes to its index. */
  function Hash(c: Customer): nat {
    c.index
  }

  /**
   * The order on customers is a strict total order on their indices:
   * irreflexive, transitive, and any two customers with different indices
   * are comparable one way round; customers with the same index hash alike.
   */
  lemma CustomerOrderIsStrictTotal(a: Customer, b: Customer, c: Customer)
    ensures !CustomerLess(a, a)
    ensures CustomerLess(a, b) && CustomerLess(b, c) ==> CustomerLess(a, c)
    ensures a.index != b.index <==> (CustomerLess(a, b) || CustomerLess(b, a))
    ensures CustomerLess(a, b) ==> !CustomerLess(b, a)
    ensures a.index == b.index ==> Hash(a) == Hash(b)
  {
  }
}
