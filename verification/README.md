# Labelling engines for the ESPPRC pricing problem, and a best-first branch and bound

This project is a Dafny model of the pricing side of a column-generation solver for the Vehicle Routing Problem with Time Windows. The pricing problem is the Elementary Shortest Path Problem with Resource Constraints (ESPPRC). The model covers:

- **The exact labelling engine** (`ESPPRC`), in `espprc.dfy`.
  - A label is a partial route from the depot. It records its customer, cost, load, time and the set of customers it can no longer reach, plus a link to the label it extends.
  - `solve` repeats a few steps until its worklist is empty:
    - it pops the label of least customer index;
    - it skips the label if it is dead;
    - it absorbs its predecessor's unreachable set;
    - it extends the label to every customer it may still reach;
    - it records failed extensions as unreachable customers;
    - it drops extensions that a pooled label dominates;
    - it admits the rest, after they filter the labels they dominate out of their customer's pool.
  - The result is the cheapest label at the depot.
- **The state-space relaxation** (`SSR_SPPRC`) and **the decremental state-space relaxation** (`DSSR_ESPPRC`), as label classes of the same engine (`Labels.Kind`).
  - SSR adds a visit counter bounded by `n_customers`.
  - DSSR adds the set of critical customers visited.
  - `DSSR_ESPPRC.solve` re-solves, growing the critical set by the customers the route repeats, until the route repeats none (`dssr.dfy`).
- **The earlier single-file engine** (`VRPTW.subproblem`), in `vrptw.dfy`.
  - It uses the same labels and dominance.
  - After filtering the pool, a new label learns eagerly every customer it cannot be extended to (`update_unreachable_cs`). If it learned any, it is checked for dominance again.
- **Best-first branch and bound** (`BB`), in `bb.dfy`.

## Representation

- **Labels, the arena and pools.**
  - Labels are values of one datatype with three label classes.
  - An engine (`Espprc.Engine`, `Vrptw.Problem`) owns an arena `seq<Label>`.
  - `prev` is an arena index.
  - Each customer's label list (`customer.labels`) is a pool of arena indices.
  - The `_is_dominated` flag is a `seq<bool>` beside the arena.
  - Unreachable sets that the source grows in place are grown in the arena.
- **Termination of `solve`.**
  - Every queued label has a rank: the number of customers it may still reach.
  - A new label's rank is below its parent's.
  - A round therefore removes one queued label and adds at most `n` labels of lower rank.
  - So the sum of `(n + 1)^rank` over the queue strictly drops (`Chains.PopAndPush`).
- **What the code does, which the model follows:**
  - An SSR label still carries the unreachable set, and the extension still skips and records unreachable customers (src/ESPPRC.py:179-183, 200-201). The visit count (src/SSR_SPPRC.py:29-31) is one more test beside it. The class comment at src/SSR_SPPRC.py:4-8 speaks of replacing the set; the code does not.
  - The count grows by one on every extension, including one back to the depot (src/SSR_SPPRC.py:29-33).
  - `solve` returns the path and cost of one least-cost depot label (src/ESPPRC.py:216-217).
  - `BB` skips a non-integer node only when its objective is strictly above the incumbent's (src/BB.py:25-26). A node whose objective ties with it is split.

## Model

| member | source | states |
|---|---|---|
| Graph.All | src/ESPPRC.py:180-181 | the set of all customer indices holds exactly the indices below `n` and has `n` elements |
| Graph.CustomerOrderIsStrictTotal | src/VRPTW.py:30-37 | customer order by index is irreflexive, transitive and asymmetric, relates any two customers with different indices, and equal indices hash alike |
| Labels.NewLabel | src/ESPPRC.py:44-51 | a new label has its own customer as only unreachable customer, the given back-link, no visits counted and no critical customer visited |
| Labels.DepotLabel | src/ESPPRC.py:35-42 | the depot label has no resources, no predecessor and an empty unreachable set, so it may extend to its own customer |
| Labels.DominatesIffStrictlyBetter | src/ESPPRC.py:90-96 | dominance holds exactly when cost, load and time are each no larger and the unreachable set is a subset, and at least one of the four differs |
| Labels.DominanceIrreflexiveAsymmetric | src/ESPPRC.py:87-96 | two labels with equal cost, load, time and unreachable set never dominate each other, and dominance is asymmetric |
| Labels.DominanceTransitive | src/ESPPRC.py:90-95 | dominance is transitive |
| Labels.SubsetOfSameSize | src/ESPPRC.py:92-95 | a subset of the same size is the whole set, so the size test detects a strict subset |
| Labels.SsrDominatesIff | src/SSR_SPPRC.py:14-15 | SSR dominance holds exactly when the label is no worse in cost, load, time and unreachable set, differs in one of them, and has counted no more visits |
| Labels.DssrDominatesIff | src/DSSR_ESPPRC.py:17-19 | DSSR dominance holds exactly when, in addition to the SSR conditions, the label's critical customers visited are among the other's |
| Labels.DominatesByIsStrictOrder | src/SSR_SPPRC.py:14-15 | for every label class, dominance implies base dominance and is irreflexive, asymmetric and transitive |
| Extension.ExtendResources | src/ESPPRC.py:166-177 | the extension fails exactly on a capacity or latest-time violation. Otherwise cost adds the arc cost minus the origin's dual and load adds the demand. Time is no earlier than the arrival and lies inside the window |
| Extension.ExtendedTime | src/ESPPRC.py:174-175 | service starts at the later of the arrival over the arc and the opening of the window |
| Extension.BaseExtend | src/ESPPRC.py:155-184 | the exact extension fails exactly when the resources fail; a new label carries those resources and its back-link; its unreachable set is its customer plus either all customers (at the depot) or the predecessor's set |
| Extension.SsrExtend | src/SSR_SPPRC.py:24-34 | the SSR extension fails when the base one fails or the count would exceed `n_customers`; otherwise it is the base label with count one more than the predecessor's |
| Extension.DssrExtend | src/DSSR_ESPPRC.py:35-44 | the corrected DSSR extension inherits the predecessor's critical set, rejects a revisit of a critical customer, adds a critical target, and otherwise returns the SSR label |
| Extension.DssrExtendAsWritten | src/DSSR_ESPPRC.py:35-44 | the DSSR extension as written fails only when the SSR one fails, and its critical set holds at most the target |
| Extension.DssrRevisitAcceptedAsWritten | src/DSSR_ESPPRC.py:40-42 | a revisit of a critical customer already visited is accepted as written and rejected by the corrected extension |
| Extension.SsrExtendAsWritten | src/SSR_SPPRC.py:24-34 | as written, the SSR extension raises AttributeError exactly when the base extension builds a label, and returns `None` otherwise |
| Extension.SsrFirstExtensionRaises | src/SSR_SPPRC.py:29 | on a two-node instance, extending the depot label raises as written, while the corrected extension gives a label with count 1 |
| Extension.Extend | src/SSR_SPPRC.py:20-22 | the extension of the engine's label class fails whenever the base one fails; a new label has the base resources, unreachable set and back-link, and a count that is 0 for the exact engine and otherwise one more than the predecessor's, within `n_customers` |
| Chains.PathOf | src/ESPPRC.py:59-69 | a label's path is non-empty |
| Chains.PathShape | src/ESPPRC.py:59-69 | the path has one entry more than the chain depth and ends with the label's own customer |
| Chains.ReplayReproduces | src/ESPPRC.py:166-184 | in a resource-chained arena, replaying the extensions along a label's path from the depot reproduces that label's cost, load and time |
| Chains.SurvivorsMembership | src/ESPPRC.py:115-123 | the filtered pool holds exactly the pooled labels the new label does not dominate, and is no longer than the pool |
| Chains.RankAntitone | src/ESPPRC.py:129-130 | growing a label's unreachable set never raises its rank |
| Chains.RankDrops | src/ESPPRC.py:199-207 | a label that gains a customer it could reach has a lower rank |
| Chains.ChildrenLighter | src/ESPPRC.py:199-214 | at most `n` children of rank below `r` weigh less than one label of rank `r` |
| Chains.MassOfChildren | src/ESPPRC.py:199-214 | adding at most `n` labels of rank below `r` adds less weight than one label of rank `r` |
| Chains.PopAndPush | src/ESPPRC.py:191-214 | popping a label and pushing at most `n` lower-rank children strictly lowers the queue's weight |
| Espprc.GrowLabel | src/ESPPRC.py:206 | growing a label's unreachable set within all customers keeps the arena invariant |
| Espprc.ChildElementary | src/ESPPRC.py:179-183 | a new label extends its parent's path by a customer not on it, so the path stays elementary up to a final depot |
| Espprc.ChildOk | src/ESPPRC.py:179-184 | the extension of a label to a customer it may reach is linked to it, holds the target and its parent's unreachable set, and satisfies the label invariant |
| Espprc.AppendChild | src/ESPPRC.py:179-184 | appending an extension keeps the arena invariant, changes no older label, and has lower rank than its parent |
| Espprc.ArenaChained | src/ESPPRC.py:166-184 | every label of a valid arena carries the resources of extending its predecessor |
| Espprc.MinCustomerPos | src/ESPPRC.py:53-54 | the popped position holds a queued label of least customer index |
| Espprc.PopIsFirstLeast | src/ESPPRC.py:53-54 | under `Label.__lt__`, which compares customers by `Customer.__lt__` (src/VRPTW.py:30-31), no queued label is less than the popped one and every label queued before it is greater |
| Espprc.PopMin | src/ESPPRC.py:192 | the popped label is the one at `MinCustomerPos`, the rest of the queue is the queue without one copy of it, and the queue's weight drops by the popped label's share |
| Espprc.Enqueue | src/ESPPRC.py:214 | an admitted label, the arena's newest, is queued behind the old entries; nothing is queued otherwise |
| Espprc.StepCases | src/ESPPRC.py:199-214 | the four outcomes of one try (skipped, failed, dominated, admitted), each given by its effect on the arena, pools and dead flags, are exactly `Step` |
| Espprc.ChainedSteps | src/ESPPRC.py:199-214 | a chain of states each following by `Step` on the next customer ends in the state after trying all of them in index order (`Steps`) |
| Espprc.MinCostPos | src/ESPPRC.py:216 | the chosen depot label has least cost, and is the first one of that cost |
| Espprc.Engine.constructor | src/ESPPRC.py:148-153 | an engine starts with zero duals and no critical customer, and is valid |
| Espprc.Engine.SetDuals | src/ESPPRC.py:153 | new dual values replace the old ones and leave the rest of the instance unchanged |
| Espprc.Engine.IsDominated | src/ESPPRC.py:99-106 | the result is true exactly when some label in the pool of the label's customer dominates it |
| Espprc.Engine.FilterDominated | src/ESPPRC.py:108-123 | the pool keeps, in order, exactly the labels the new label does not dominate; exactly the removed labels become dead; the invariant holds |
| Espprc.Engine.UpdateUnreachableFromPrev | src/ESPPRC.py:125-130 | a label's unreachable set gains its predecessor's set, and nothing else changes |
| Espprc.Engine.Path | src/ESPPRC.py:59-69 | the loop over back-links returns the label's path |
| Espprc.Engine.ExtendTo | src/ESPPRC.py:199-214 | the result covers four cases. A skipped target changes nothing. A failed extension adds the target to the label's unreachable set. A dominated extension changes nothing. Otherwise the pool is filtered, the dominated labels die, and the new label is appended, pooled and returned with a lower rank |
| Espprc.Engine.Forbid | src/ESPPRC.py:205-207 | a failed extension adds its target to the label's unreachable set, and the invariant holds |
| Espprc.Engine.Admit | src/ESPPRC.py:209-214 | an undominated extension filters its pool, kills the labels it dominates, joins the pool and is appended with lower rank than its parent |
| Espprc.Engine.Append | src/ESPPRC.py:213-214 | a valid new label gets the next index, is alive and joins its customer's pool |
| Espprc.Engine.Push | src/ESPPRC.py:200-214 | the new arena, pools and dead flags are `Step` of the old ones; at most one label is queued, behind the old entries, of rank below its parent's |
| Espprc.Engine.Scan | src/ESPPRC.py:199-214 | the states after each customer tried form a `Step` chain from the old state to the new one; the admitted labels are queued in creation order, each of rank below the expanded label's |
| Espprc.Engine.Expand | src/ESPPRC.py:198-214 | the new arena, pools and dead flags are `Expansion` of the old ones (absorb the predecessor's set, then try every customer); at most `n` labels are queued behind the old entries, each of rank below the expanded label's |
| Espprc.Engine.Round | src/ESPPRC.py:192-214 | the first queued label of least customer is popped. A dead one leaves arena, pools and dead flags unchanged; a live one turns them into their `Expansion`. Its admitted labels join the rest of the queue, so the new state and queue are `SolvePass` of the old ones, and the queue's weight strictly drops |
| Espprc.Engine.Reset | src/ESPPRC.py:187-190 | every pool is emptied and the arena holds only the live depot label, which starts the worklist |
| Espprc.Engine.Search | src/ESPPRC.py:191-214 | the worklist loop ends, keeps the arena invariant, and only appends labels and grows unreachable sets. Its passes form a `SolveRun`: a sequence of states from the old state with the depot label queued to the final state with an empty queue, each the `SolvePass` of the one before |
| Espprc.SolveRunUnique | src/ESPPRC.py:191-214 | two runs of the loop from the same state that both end on an empty queue are the same run, so the final arena, pools and dead flags are a function of the start |
| Espprc.Engine.BestRoute | src/ESPPRC.py:216-217 | there is no route exactly when the depot pool is empty. Otherwise the route is the path and cost of the first least-cost depot label, the one `min(key=cost)` returns (`FirstLeastCost`, at `MinCostPos`). The path starts and ends at the depot, repeats no customer before its end, and replays to that cost |
| Espprc.Engine.Solve | src/ESPPRC.py:186-217 | the labelling loop runs from the reset state (only the depot label, all pools empty) to an empty queue, as a `SolveRun` whose last state is the engine's final arena, pools and dead flags. The route is the path and cost of that state's first least-cost depot label (`FirstLeastCost`), with the path facts stated for BestRoute |
| Dssr.FindDuplicates | src/DSSR_ESPPRC.py:3-10 | the one-pass loop returns exactly the elements occurring at least twice |
| Dssr.NoDuplicatesIffNoRepeats | src/DSSR_ESPPRC.py:3-10 | there are no duplicates exactly when no element repeats |
| Dssr.Attempt | src/DSSR_ESPPRC.py:28-29 | one round leaves the instance and the critical set alone. It fails exactly when the depot pool is empty; otherwise its route is a `DepotRoute` (which includes the `SolveRun` from the depot label that produced the final state) and the duplicates are exactly the customers repeated before the route's end |
| Dssr.SolveDssr | src/DSSR_ESPPRC.py:26-33 | the critical set only grows. A returned route is a `DepotRoute`: it starts and ends at the depot, replays to its cost, and is the path and cost of the first least-cost depot label of the last run. It repeats no customer before its end. A failed run leaves the depot pool empty |
| BranchAndBound.MinObjPos | src/BB.py:6-7 | the popped node has least objective and is the first such node |
| BranchAndBound.SolveAndPush | src/BB.py:32-35 | the solved node is queued exactly when it is feasible, so the queue never holds an infeasible node |
| BranchAndBound.Branch | src/BB.py:27-29 | the queue gains the feasible ones of the node's two solved halves, left first |
| BranchAndBound.PushedSnoc | src/BB.py:27-29 | splitting one more node adds exactly the feasible ones of its solved halves to the nodes ever queued |
| BranchAndBound.Pass | src/BB.py:19-29 | one pass of the loop computes `Visit`: pop the first least node; an integer node replaces the incumbent when its objective is lower; a node above the incumbent is pruned; any other is split and its feasible halves are queued |
| BranchAndBound.VisitKeepsInv | src/BB.py:19-29 | every pass keeps `Inv`: queued and popped nodes are feasible, the incumbent is the first least integer node popped, split nodes were not above the incumbent of their time and pruned ones were above it, the root goes first, every node ever queued is popped or queued, and every non-integer popped node was split or pruned |
| BranchAndBound.InvStarts | src/BB.py:14-17 | the start state, the solved root queued if feasible and no incumbent, satisfies `Inv` |
| BranchAndBound.IterateKeepsInv | src/BB.py:18-29 | `Inv` holds after any number of passes of the loop |
| BranchAndBound.IterateStops | src/BB.py:18-19 | the loop pops one node per pass, so after `k` passes from a run it has popped at most `k` more nodes, and exactly `k` more unless the queue emptied |
| BranchAndBound.SearchOutcome | src/BB.py:13-30 | the run the loop reaches from the start within `fuel` passes satisfies `Inv` and stopped because its queue is empty or its fuel is spent |
| BranchAndBound.Search | src/BB.py:13-30 | the result is the incumbent of the run `Iterate` reaches from `Start` within `fuel` passes |
| BranchAndBound.RunIncumbent | src/BB.py:20-26 | in any such run the result is None exactly when no integer node was popped, and otherwise is the first integer node popped of least objective among them. Every split node was non-integer and not above the final incumbent |
| BranchAndBound.RunCoverage | src/BB.py:17-29 | a stopped run pops nothing when the solved root is infeasible, and otherwise pops the root first. It pops only nodes ever queued (the solved root and the solved halves of split nodes), and all of them when the queue emptied before the fuel ran out |
| Vrptw.EagerExtend | src/VRPTW.py:209-224 | the extension fails exactly on a capacity or time-window violation; otherwise it has the exact engine's resources and unions in the predecessor's unreachable set, with no depot case |
| Vrptw.RootLabel | src/VRPTW.py:164 | the start label sits at the depot with no predecessor and only the depot unreachable |
| Vrptw.FreshAppend | src/VRPTW.py:178-195 | a kept label extends its parent by a reachable customer with that extension's resources, knows every customer it cannot reach, and has lower rank |
| Vrptw.FreshChain | src/VRPTW.py:174-195 | every label built from the start label has a path from the depot that repeats no customer, lies in its unreachable set and replays to its resources |
| Vrptw.Problem.constructor | src/VRPTW.py:151-161 | an instance uses one matrix for costs and times and starts with zero duals and empty pools |
| Vrptw.Problem.SetDuals | src/VRPTW.py:161 | new dual values replace the old ones |
| Vrptw.Problem.FilterDominatedBy | src/VRPTW.py:39-54 | the pool keeps, in order, exactly the labels the given label does not dominate, and exactly the removed labels become dead |
| Vrptw.Problem.IsDominated | src/VRPTW.py:122-129 | the result is true exactly when a pooled label of the same customer dominates the label |
| Vrptw.Problem.UpdateUnreachable | src/VRPTW.py:226-246 | the unreachable set gains exactly the reachable customers whose extension fails; the result is true exactly when it gained one; afterwards every customer left reachable can be extended to |
| Vrptw.Problem.Keep | src/VRPTW.py:194-195 | a label gets the next index, is alive and joins its customer's pool |
| Vrptw.Problem.Settle | src/VRPTW.py:188-192 | the pool is filtered by the new label before its update. The label is then saturated with its failing customers. It is dropped exactly when it learned a customer and a remaining pooled label dominates it |
| Vrptw.Problem.KeepChild | src/VRPTW.py:194-195 | the updated label is appended and pooled, extends its parent and has lower rank |
| Vrptw.Problem.Admit | src/VRPTW.py:185-195 | an undominated extension filters its pool and is dropped exactly when, after its update, a survivor dominates it. Otherwise it is appended and pooled as updated, linked to its parent, with lower rank |
| Vrptw.TryAdmitted | src/VRPTW.py:188-195 | an undominated extension, given by its effect (filtered pool, dead flags of the labels it dominates, and either dropped after its update or appended and pooled), is exactly `Try` |
| Vrptw.UndominatedStays | src/VRPTW.py:185-192 | when the update adds no customer, no label kept after filtering dominates the extension, so the second dominance test cannot drop it |
| Vrptw.TryChainedTries | src/VRPTW.py:174-195 | a chain of states each following by `Try` on the next customer ends in the state after trying all of them in index order (`Tries`) |
| Vrptw.Problem.TryExtend | src/VRPTW.py:175-195 | the new arena, pools and dead flags are `Try` of the old ones, covering all four outcomes (skipped, failed, dominated before or after the update, kept). A kept label is appended, extends its parent, knows every customer it cannot reach and has lower rank |
| Vrptw.Problem.Push | src/VRPTW.py:174-195 | the state after one try is appended to a `Try` chain; at most one label is queued, behind the old entries, of rank below its parent's |
| Vrptw.Problem.Expand | src/VRPTW.py:174-195 | the states after customers 1 to n - 1 are tried form a `Try` chain from the old state to the new one (the depot, unreachable from every label, is never tried); at most `n` labels are queued, each of rank below the expanded label's, and the depot pool is left alone |
| Vrptw.Problem.Round | src/VRPTW.py:167-195 | the first queued label of least customer is popped. A dead one leaves arena, pools and dead flags unchanged; a live one has every customer tried in index order (`Tries`). The new state and queue are `SubproblemPass` of the old ones, the depot pool is left alone, and the queue's weight strictly drops |
| Vrptw.Problem.Search | src/VRPTW.py:167-195 | the loop ends, keeps the invariant and only appends labels. Its passes form a `SubproblemRun` from the old state with the start label queued to the final state with an empty queue, each state the `SubproblemPass` of the one before |
| Vrptw.SubproblemRunUnique | src/VRPTW.py:167-195 | two runs of the loop from the same state that both end on an empty queue are the same run, so the final state is a function of the start |
| Vrptw.Problem.Subproblem | src/VRPTW.py:163-195 | the start label is appended and pooled at the depot, and the loop runs from that state to an empty queue as a `SubproblemRun` whose last state is the final arena, pools and dead flags. Every label created has an elementary path from the depot that replays to its resources |

## Left out

- `src/main.py` and `src/parsers.py`: console driver and file input. They are not part of this model.
- `VRPTW.compute_costs` and the `1000` sentinel arcs: cost and time matrices are inputs. The numpy duals vector is a sequence of reals set through `SetDuals`.
- `print_path`, `Label.__repr__` and the module-level example instance.
- `BBNode.__iter__`: a solved node is a datatype whose `obj` and `solution` fields are read directly.
- The LP/MIP solving inside a B&B node: `solve` and `split` are function parameters.
- Heap tie order: the worklist is a sequence, and both engines pop the first queued label of least customer index. `heapq`'s own order among equal keys is not modelled.
- BranchAndBound.MinObjPos: the same for the branch-and-bound queue. `BBNode.__lt__` compares `obj` only (src/BB.py:6-7), and `heappop` (src/BB.py:19) gives no first-of-ties guarantee among nodes pushed at src/BB.py:35 with equal objective. The model pops the first of them. Because the incumbent is replaced only on a strictly lower objective (src/BB.py:21), which of two equal-objective integer nodes becomes the incumbent, and so `RunIncumbent`'s "first", follows the model's order and not necessarily the heap's.
- Floating point: costs, times, loads, duals and objectives are Python or numpy floats in the source and exact reals in the model. Rounding is not modelled, including in the dominance tests, the time-window and capacity checks, and the incumbent comparison.
- `subproblem` builds its start label on the module-level example depot `c0` (src/VRPTW.py:164-165, defined at src/VRPTW.py:267), whatever instance it holds, and no run clears any label list. The model starts from the instance's customer 0, whose pool `pools[0]` plays the part of `c0.labels`; pools and the arena likewise persist across runs. `vehicles` is stored but unused, as in the source.
- Labels are values: the in-place growth of a label's unreachable set is an update of its arena slot, and `SSR_SPPRC.extended_label` and `DSSR_ESPPRC.extended_label`, which set fields on the label just built, are functions returning it.
- Espprc.Engine.Search: the run is ghost. Its contract says each pass is `SolvePass` of the previous state; which labels that creates is stated by `Expansion` and `Step`, not by a closed form.
- Vrptw.Problem.Search: likewise, through `SubproblemPass`, `Tries` and `Try`.
- Espprc.Engine.Solve: the route is proved to be the least-cost depot label of the final state of the labelling run. That dominance never discards a cheaper elementary route is not proved.
- Dssr.SolveDssr: the source loops with no bound; the model stops after `fuel` rounds with `OutOfFuel`. The contract does not state that the first round returns. `Espprc.Engine.Solve` gives a route that repeats no customer before its end, and `Dssr.NoDuplicatesIffNoRepeats` shows `find_duplicates` then finds none. The restart branch is nevertheless kept as the code has it, and `OutOfFuel` remains a possible result in the contract.
- BranchAndBound.Search: bounded by `fuel` pops, since an abstract `split` need not terminate. Its contract ties the result to the run `Iterate` reaches from `Start`; `SearchOutcome` shows that run satisfies `Inv` and has stopped, and what that means for the result is stated by `RunIncumbent` and `RunCoverage`.
- Vrptw.Problem.Subproblem: it states the start state, the run of `SubproblemPass` steps from it to an empty queue, and the paths of the labels created. That the depot pool then holds the least reduced-cost route is not proved.
- Pools as antichains: a new label is never dominated by the pool it joins and removes what it dominates. Mutual non-dominance of the whole pool is not claimed, because unreachable sets of pooled labels grow later.
- The relaxation bounds between engines (SSR cost at most ESPPRC cost, and so on) are not stated.

## Findings

| source | as written | input that shows it | evidently intended | confidence | as-written member | corrected member |
|---|---|---|---|---|---|---|
| src/SSR_SPPRC.py:24-34 | `extended_label` reads `from_label.n_visited` and `self.n_customers`. The base engine builds plain `Label`s without `n_visited` (src/ESPPRC.py:40, 179), so the first successful extension raises AttributeError | the depot label of a two-node instance extended to customer 1 | labels of the engine's label class (`label_cls`); count = parent's + 1, at most `n_customers` | not executed | Extension.SsrFirstExtensionRaises | Extension.SsrExtend |
| src/DSSR_ESPPRC.py:35-44 | the new label's `critical_visited` starts empty and is never inherited, so the revisit test at lines 41-42 never rejects | a label whose critical set holds a critical target and whose SSR extension to it succeeds | inherit the predecessor's critical set and reject a revisit of a critical customer | not executed | Extension.DssrRevisitAcceptedAsWritten | Extension.DssrExtend |
