/**
 * Best-first branch and bound over abstract nodes. A node is solved into an
 * objective value, a solution and two flags (integer, infeasible); an
 * unsolved problem is split into two. Solving and splitting are parameters:
 * the relaxation they stand for is not part of this module.
 */
module BranchAndBound {
  import opened Wrappers
  import opened Seqs

  /** A solved branch-and-bound node (`BBNode` after `solve`). */
  datatype Node<P, S> = Node(problem: P, obj: real, solution: S, integer: bool, infeasible: bool)

  /** `BBNode.__lt__`: nodes are ordered by objective value. */
  predicate Less<P, S>(a: Node<P, S>, b: Node<P, S>) {
    a.obj < b.obj
  }

  /** Position of the first node of least objective: the heap's pop. */
  function MinObjPos<P, S>(queue: seq<Node<P, S>>): (i: nat)
    requires |queue| > 0
    ensures i < |queue|
    ensures forall k :: 0 <= k < |queue| ==> !Less(queue[k], queue[i])
    ensures forall k :: 0 <= k < i ==> Less(queue[i], queue[k])
  {
    if |queue| == 1 then 0
    else
      var i := MinObjPos(queue[..|queue| - 1]);
      if Less(queue[|queue| - 1], queue[i]) then |queue| - 1 else i
  }

  /** The incumbent objective `min_obj`; `None` stands for infinity. */
  type Bound = Option<real>

  /** `obj < min_obj`. */
  predicate Improves(obj: real, bound: Bound) {
    bound.None? || obj < bound.value
  }

  /** `obj > min_obj`. */
  predicate Exceeds(obj: real, bound: Bound) {
    bound.Some? && obj > bound.value
  }

  /** Bound `now` is no larger than bound `earlier`. */
  predicate NoLarger(now: Bound, earlier: Bound) {
    earlier.None? || (now.Some? && now.value <= earlier.value)
  }

  /**
   * `solve_and_push`: the problem is solved once and the node joins the
   * queue unless it is infeasible.
   */
  method SolveAndPush<P, S>(queue: seq<Node<P, S>>, problem: P, solve: P -> Node<P, S>) returns (queue': seq<Node<P, S>>)
    ensures !solve(problem).infeasible ==> queue' == queue + [solve(problem)]
    ensures solve(problem).infeasible ==> queue' == queue
    ensures (forall k :: 0 <= k < |queue| ==> !queue[k].infeasible) ==>
      forall k :: 0 <= k < |queue'| ==> !queue'[k].infeasible
  {
    var node := solve(problem);
    queue' := queue;
    if !node.infeasible {
      queue' := queue' + [node];
    }
  }

  /** The nodes of `nodes` that are feasible, in order. */
  function Feasible<P, S>(nodes: seq<Node<P, S>>): seq<Node<P, S>> {
    if nodes == [] then [] else
      var last := nodes[|nodes| - 1];
      Feasible(nodes[..|nodes| - 1]) + if last.infeasible then [] else [last]
  }

  /** The nodes of `nodes` that are not integer, in order. */
  function NonInteger<P, S>(nodes: seq<Node<P, S>>): seq<Node<P, S>> {
    if nodes == [] then [] else
      var last := nodes[|nodes| - 1];
      NonInteger(nodes[..|nodes| - 1]) + if last.integer then [] else [last]
  }

  /** The nodes of a list of (node, bound) entries. */
  function Nodes<P, S>(entries: seq<(Node<P, S>, Bound)>): seq<Node<P, S>>
  {
    if entries == [] then [] else Nodes(entries[..|entries| - 1]) + [entries[|entries| - 1].0]
  }

  /** The solved halves of every split node, left before right, in split order. */
  function Children<P, S>(solve: P -> Node<P, S>, split: Node<P, S> -> (P, P), parents: seq<Node<P, S>>): seq<Node<P, S>> {
    if parents == [] then [] else
      var halves := split(parents[|parents| - 1]);
      Children(solve, split, parents[..|parents| - 1]) + [solve(halves.0), solve(halves.1)]
  }

  /** Filtering feasible nodes distributes over concatenation. */
  lemma {:induction false} FeasibleAppend<P, S>(a: seq<Node<P, S>>, b: seq<Node<P, S>>)
    ensures Feasible(a + b) == Feasible(a) + Feasible(b)
    decreases |b|
  {
    if b != [] {
      var front, last := b[..|b| - 1], b[|b| - 1];
      var tail := if last.infeasible then [] else [last];
      assert (a + b)[..|a + b| - 1] == a + front && (a + b)[|a + b| - 1] == last;
      FeasibleAppend(a, front);
      calc {
        Feasible(a + b);
        Feasible(a + front) + tail;
        (Feasible(a) + Feasible(front)) + tail;
        Feasible(a) + (Feasible(front) + tail);
        Feasible(a) + Feasible(b);
      }
    } else {
      assert a + b == a && Feasible(a) + [] == Feasible(a);
    }
  }

  /** Splitting one more node adds the feasible ones of its two solved halves to the nodes ever queued. */
  lemma PushedSnoc<P, S>(first: Node<P, S>, solve: P -> Node<P, S>, split: Node<P, S> -> (P, P),
                         parents: seq<Node<P, S>>, node: Node<P, S>)
    ensures Feasible([first] + Children(solve, split, parents + [node])) ==
      Feasible([first] + Children(solve, split, parents)) + Feasible([solve(split(node).0), solve(split(node).1)])
  {
    var halves := [solve(split(node).0), solve(split(node).1)];
    assert (parents + [node])[..|parents|] == parents;
    assert Children(solve, split, parents + [node]) == Children(solve, split, parents) + halves;
    assert [first] + Children(solve, split, parents + [node]) == ([first] + Children(solve, split, parents)) + halves;
    FeasibleAppend([first] + Children(solve, split, parents), halves);
  }

  /** Lines 27-29 of `BB`: the node is split, and both halves are solved and pushed, left first. */
  method Branch<P, S>(queue: seq<Node<P, S>>, node: Node<P, S>, solve: P -> Node<P, S>, split: Node<P, S> -> (P, P))
    returns (queue': seq<Node<P, S>>)
    ensures queue' == queue + Feasible([solve(split(node).0), solve(split(node).1)])
    ensures (forall k :: 0 <= k < |queue| ==> !queue[k].infeasible) ==>
      forall k :: 0 <= k < |queue'| ==> !queue'[k].infeasible
  {
    var (left, right) := split(node);
    queue' := SolveAndPush(queue, left, solve);
    queue' := SolveAndPush(queue', right, solve);
    FeasibleAppend([solve(left)], [solve(right)]);
    assert [solve(left)] + [solve(right)] == [solve(left), solve(right)];
    assert Feasible([solve(left)]) == if solve(left).infeasible then [] else [solve(left)];
    assert Feasible([solve(right)]) == if solve(right).infeasible then [] else [solve(right)];
  }

  /**
   * The state of a `BB` run: the queue and the incumbent (`min_bbnode`,
   * `min_obj`), with the history of the run: the nodes popped, the nodes
   * split and the nodes pruned, each with the incumbent bound of that time,
   * and the position of the incumbent among the popped nodes.
   */
  datatype Run<P, S> = Run(
    queue: seq<Node<P, S>>, best: Option<Node<P, S>>, minObj: Bound, popped: seq<Node<P, S>>,
    expanded: seq<(Node<P, S>, Bound)>, pruned: seq<(Node<P, S>, Bound)>, bestAt: nat)

  /**
   * One pass of `BB`'s loop: the least node is popped; an integer node
   * becomes the incumbent when it improves on it; a node above the
   * incumbent is pruned; any other node is split and its feasible halves
   * are queued.
   */
  function Visit<P, S>(solve: P -> Node<P, S>, split: Node<P, S> -> (P, P), r: Run<P, S>): Run<P, S>
    requires r.queue != []
  {
    var i := MinObjPos(r.queue);
    var node := r.queue[i];
    var s := r.(queue := r.queue[..i] + r.queue[i + 1..], popped := r.popped + [node]);
    if node.integer then
      if Improves(node.obj, r.minObj) then s.(best := Some(node), minObj := Some(node.obj), bestAt := |r.popped|) else s
    else if Exceeds(node.obj, r.minObj) then
      s.(pruned := r.pruned + [(node, r.minObj)])
    else
      s.(expanded := r.expanded + [(node, r.minObj)],
         queue := s.queue + Feasible([solve(split(node).0), solve(split(node).1)]))
  }

  /** Queued and popped nodes are feasible. */
  ghost predicate FeasibleNodes<P, S>(r: Run<P, S>) {
    && (forall k :: 0 <= k < |r.queue| ==> !r.queue[k].infeasible)
    && (forall k :: 0 <= k < |r.popped| ==> !r.popped[k].infeasible)
  }

  /**
   * The incumbent is the first integer node popped of least objective, and
   * `min_obj` is its objective; there is none while no integer node was popped.
   */
  ghost predicate Incumbent<P, S>(r: Run<P, S>) {
    && (r.best.None? <==> r.minObj.None?)
    && (r.best.None? <==> forall k :: 0 <= k < |r.popped| ==> !r.popped[k].integer)
    && (r.best.Some? ==>
        && r.minObj == Some(r.best.value.obj) && r.best.value.integer
        && r.bestAt < |r.popped| && r.popped[r.bestAt] == r.best.value
        && forall j :: 0 <= j < r.bestAt && r.popped[j].integer ==> r.popped[j].obj > r.best.value.obj)
    && (forall k :: 0 <= k < |r.popped| && r.popped[k].integer ==> r.minObj.Some? && r.minObj.value <= r.popped[k].obj)
  }

  /** Split nodes were not above the incumbent of their time, which has not risen since; pruned nodes were above it. */
  ghost predicate Decisions<P, S>(r: Run<P, S>) {
    && (forall k :: 0 <= k < |r.expanded| ==>
        && !r.expanded[k].0.integer && !Exceeds(r.expanded[k].0.obj, r.expanded[k].1)
        && NoLarger(r.minObj, r.expanded[k].1))
    && (forall k :: 0 <= k < |r.pruned| ==> !r.pruned[k].0.integer && Exceeds(r.pruned[k].0.obj, r.pruned[k].1))
  }

  /** Until the first pop the queue holds only the solved root, if feasible; afterwards the root was popped first. */
  ghost predicate RootFirst<P, S>(root: P, solve: P -> Node<P, S>, r: Run<P, S>) {
    && (r.popped == [] ==> r.queue == Feasible([solve(root)]))
    && (r.popped != [] ==> r.popped[0] == solve(root))
  }

  /** Every popped node that is not integer was split or pruned, and nothing else was. */
  ghost predicate Classified<P, S>(r: Run<P, S>) {
    multiset(NonInteger(r.popped)) == multiset(Nodes(r.expanded)) + multiset(Nodes(r.pruned))
  }

  /**
   * What `BB`'s loop keeps: the nodes are feasible, the incumbent is right,
   * the split and prune records are true, the root goes first, and every
   * node ever queued is either popped or still queued.
   */
  ghost predicate Inv<P, S>(root: P, solve: P -> Node<P, S>, split: Node<P, S> -> (P, P), r: Run<P, S>) {
    && FeasibleNodes(r) && Incumbent(r) && Decisions(r) && RootFirst(root, solve, r) && Classified(r)
    && multiset(r.popped) + multiset(r.queue) == multiset(EverQueued(root, solve, split, r.expanded))
  }

  /** Popping the least node keeps the queue feasible and the popped nodes feasible. */
  lemma VisitFeasible<P, S>(solve: P -> Node<P, S>, split: Node<P, S> -> (P, P), r: Run<P, S>)
    requires r.queue != [] && FeasibleNodes(r)
    ensures FeasibleNodes(Visit(solve, split, r))
  {
    var i := MinObjPos(r.queue);
    var node := r.queue[i];
    var r' := Visit(solve, split, r);
    assert r'.popped == r.popped + [node];
    forall k | 0 <= k < |r'.queue|
      ensures !r'.queue[k].infeasible
    {
      var rest := r.queue[..i] + r.queue[i + 1..];
      if k >= |rest| {
        var halves := [solve(split(node).0), solve(split(node).1)];
        FeasibleOnly(halves);
      }
    }
  }

  /** A filtered list holds only feasible nodes. */
  lemma {:induction false} FeasibleOnly<P, S>(nodes: seq<Node<P, S>>)
    ensures forall k :: 0 <= k < |Feasible(nodes)| ==> !Feasible(nodes)[k].infeasible
  {
    if nodes != [] {
      FeasibleOnly(nodes[..|nodes| - 1]);
    }
  }

  /** A pass keeps the incumbent the first least integer node popped. */
  lemma VisitIncumbent<P, S>(solve: P -> Node<P, S>, split: Node<P, S> -> (P, P), r: Run<P, S>)
    requires r.queue != [] && Incumbent(r)
    ensures Incumbent(Visit(solve, split, r))
  {
    var node := r.queue[MinObjPos(r.queue)];
    var r' := Visit(solve, split, r);
    assert r'.popped == r.popped + [node] && r'.popped[|r.popped|] == node;
    assert r.best.Some? ==> r'.popped[r.bestAt] == r.best.value;
  }

  /** A pass keeps the split and prune records true: the incumbent only falls. */
  lemma VisitDecisions<P, S>(solve: P -> Node<P, S>, split: Node<P, S> -> (P, P), r: Run<P, S>)
    requires r.queue != [] && Decisions(r) && (r.best.None? <==> r.minObj.None?)
    requires r.best.Some? ==> r.minObj == Some(r.best.value.obj)
    ensures Decisions(Visit(solve, split, r))
  {
  }

  /** Nodes ever queued: the solved root and the solved halves of every split node, the infeasible ones left out. */
  ghost function EverQueued<P, S>(root: P, solve: P -> Node<P, S>, split: Node<P, S> -> (P, P), expanded: seq<(Node<P, S>, Bound)>): seq<Node<P, S>> {
    Feasible([solve(root)] + Children(solve, split, Nodes(expanded)))
  }

  /** Moving the node at `i` from the queue to the popped nodes, and queueing `added`, keeps the count of nodes once `added` is counted too. */
  lemma PopAccount<T>(popped: seq<T>, queue: seq<T>, i: nat, ever: seq<T>, added: seq<T>)
    requires i < |queue| && multiset(popped) + multiset(queue) == multiset(ever)
    ensures multiset(popped + [queue[i]]) + multiset(queue[..i] + queue[i + 1..] + added) == multiset(ever + added)
  {
    Removal(queue, i);
  }

  /** The popped node joins the popped ones; a split node's feasible halves join the queue and the nodes ever queued. */
  lemma VisitQueued<P, S>(root: P, solve: P -> Node<P, S>, split: Node<P, S> -> (P, P), r: Run<P, S>)
    requires r.queue != []
    requires multiset(r.popped) + multiset(r.queue) == multiset(EverQueued(root, solve, split, r.expanded))
    ensures multiset(Visit(solve, split, r).popped) + multiset(Visit(solve, split, r).queue) ==
      multiset(EverQueued(root, solve, split, Visit(solve, split, r).expanded))
  {
    var node := r.queue[MinObjPos(r.queue)];
    if !node.integer && !Exceeds(node.obj, r.minObj) {
      VisitSplitQueued(root, solve, split, r);
    } else {
      VisitKeptQueued(root, solve, split, r);
    }
  }

  /** A pass that splits its node queues the node's feasible halves, which join the nodes ever queued. */
  lemma VisitSplitQueued<P, S>(root: P, solve: P -> Node<P, S>, split: Node<P, S> -> (P, P), r: Run<P, S>)
    requires r.queue != [] && !r.queue[MinObjPos(r.queue)].integer && !Exceeds(r.queue[MinObjPos(r.queue)].obj, r.minObj)
    requires multiset(r.popped) + multiset(r.queue) == multiset(EverQueued(root, solve, split, r.expanded))
    ensures multiset(Visit(solve, split, r).popped) + multiset(Visit(solve, split, r).queue) ==
      multiset(EverQueued(root, solve, split, Visit(solve, split, r).expanded))
  {
    var i := MinObjPos(r.queue);
    var node := r.queue[i];
    var halves := Feasible([solve(split(node).0), solve(split(node).1)]);
    var ever := EverQueued(root, solve, split, r.expanded);
    assert (r.expanded + [(node, r.minObj)])[..|r.expanded|] == r.expanded;
    PushedSnoc(solve(root), solve, split, Nodes(r.expanded), node);
    PopAccount(r.popped, r.queue, i, ever, halves);
  }

  /** A pass that keeps or prunes its node only moves it from the queue to the popped nodes. */
  lemma VisitKeptQueued<P, S>(root: P, solve: P -> Node<P, S>, split: Node<P, S> -> (P, P), r: Run<P, S>)
    requires r.queue != [] && (r.queue[MinObjPos(r.queue)].integer || Exceeds(r.queue[MinObjPos(r.queue)].obj, r.minObj))
    requires multiset(r.popped) + multiset(r.queue) == multiset(EverQueued(root, solve, split, r.expanded))
    ensures multiset(Visit(solve, split, r).popped) + multiset(Visit(solve, split, r).queue) ==
      multiset(EverQueued(root, solve, split, Visit(solve, split, r).expanded))
  {
    var i := MinObjPos(r.queue);
    var ever := EverQueued(root, solve, split, r.expanded);
    assert r.queue[..i] + r.queue[i + 1..] + [] == r.queue[..i] + r.queue[i + 1..] && ever + [] == ever;
    PopAccount(r.popped, r.queue, i, ever, []);
  }

  /** A pass pops the root first when nothing was popped before. */
  lemma VisitRootFirst<P, S>(root: P, solve: P -> Node<P, S>, split: Node<P, S> -> (P, P), r: Run<P, S>)
    requires r.queue != [] && RootFirst(root, solve, r)
    ensures RootFirst(root, solve, Visit(solve, split, r))
  {
    if r.popped == [] {
      assert Feasible([solve(root)]) == Feasible([]) + if solve(root).infeasible then [] else [solve(root)];
      assert r.queue == [solve(root)];
    }
    assert Visit(solve, split, r).popped == r.popped + [r.queue[MinObjPos(r.queue)]];
  }

  /** A pass records its node as split or pruned exactly when the node is not integer. */
  lemma VisitClassified<P, S>(solve: P -> Node<P, S>, split: Node<P, S> -> (P, P), r: Run<P, S>)
    requires r.queue != [] && Classified(r)
    ensures Classified(Visit(solve, split, r))
  {
    var node := r.queue[MinObjPos(r.queue)];
    var r' := Visit(solve, split, r);
    if node.integer {
      VisitKeptClassified(solve, split, r);
    } else if Exceeds(node.obj, r.minObj) {
      VisitPrunedClassified(solve, split, r);
    } else {
      VisitSplitClassified(solve, split, r);
    }
  }

  /** Filtering the non-integer nodes of a list grown by one node. */
  lemma Snoc<P, S>(nodes: seq<Node<P, S>>, node: Node<P, S>)
    ensures NonInteger(nodes + [node]) == NonInteger(nodes) + if node.integer then [] else [node]
  {
    assert (nodes + [node])[..|nodes|] == nodes;
  }

  /** A pass that pops an integer node records it neither as split nor as pruned. */
  lemma VisitKeptClassified<P, S>(solve: P -> Node<P, S>, split: Node<P, S> -> (P, P), r: Run<P, S>)
    requires r.queue != [] && r.queue[MinObjPos(r.queue)].integer
    requires Classified(r)
    ensures Classified(Visit(solve, split, r))
  {
    var node := r.queue[MinObjPos(r.queue)];
    Snoc(r.popped, node);
    assert NonInteger(r.popped + [node]) == NonInteger(r.popped) + [];
  }

  /** A pass that prunes its node records it as pruned. */
  lemma VisitPrunedClassified<P, S>(solve: P -> Node<P, S>, split: Node<P, S> -> (P, P), r: Run<P, S>)
    requires r.queue != [] && !r.queue[MinObjPos(r.queue)].integer && Exceeds(r.queue[MinObjPos(r.queue)].obj, r.minObj)
    requires Classified(r)
    ensures Classified(Visit(solve, split, r))
  {
    var node := r.queue[MinObjPos(r.queue)];
    Snoc(r.popped, node);
    assert (r.pruned + [(node, r.minObj)])[..|r.pruned|] == r.pruned;
  }

  /** A pass that splits its node records it as split. */
  lemma VisitSplitClassified<P, S>(solve: P -> Node<P, S>, split: Node<P, S> -> (P, P), r: Run<P, S>)
    requires r.queue != [] && !r.queue[MinObjPos(r.queue)].integer && !Exceeds(r.queue[MinObjPos(r.queue)].obj, r.minObj)
    requires Classified(r)
    ensures Classified(Visit(solve, split, r))
  {
    var node := r.queue[MinObjPos(r.queue)];
    Snoc(r.popped, node);
    assert (r.expanded + [(node, r.minObj)])[..|r.expanded|] == r.expanded;
  }

  /** Every pass of `BB`'s loop keeps `Inv`. */
  lemma VisitKeepsInv<P, S>(root: P, solve: P -> Node<P, S>, split: Node<P, S> -> (P, P), r: Run<P, S>)
    requires r.queue != [] && Inv(root, solve, split, r)
    ensures Inv(root, solve, split, Visit(solve, split, r))
  {
    VisitFeasible(solve, split, r);
    VisitIncumbent(solve, split, r);
    VisitDecisions(solve, split, r);
    VisitRootFirst(root, solve, split, r);
    VisitClassified(solve, split, r);
    VisitQueued(root, solve, split, r);
  }

  /** One pass of `BB`'s loop, lines 19-29: pop, then keep, prune or split. */
  method Pass<P, S>(solve: P -> Node<P, S>, split: Node<P, S> -> (P, P), queue: seq<Node<P, S>>,
                    best: Option<Node<P, S>>, minObj: Bound, ghost popped: seq<Node<P, S>>,
                    ghost expanded: seq<(Node<P, S>, Bound)>, ghost pruned: seq<(Node<P, S>, Bound)>, ghost bestAt: nat)
    returns (queue': seq<Node<P, S>>, best': Option<Node<P, S>>, minObj': Bound, ghost popped': seq<Node<P, S>>,
             ghost expanded': seq<(Node<P, S>, Bound)>, ghost pruned': seq<(Node<P, S>, Bound)>, ghost bestAt': nat)
    requires queue != []
    ensures |popped'| == |popped| + 1
    ensures Run(queue', best', minObj', popped', expanded', pruned', bestAt') ==
      Visit(solve, split, Run(queue, best, minObj, popped, expanded, pruned, bestAt))
  {
    var i := MinObjPos(queue);
    var node := queue[i];
    queue' := queue[..i] + queue[i + 1..];
    best', minObj', popped', expanded', pruned', bestAt' := best, minObj, popped + [node], expanded, pruned, bestAt;
    if node.integer {
      if Improves(node.obj, minObj) {
        best', minObj', bestAt' := Some(node), Some(node.obj), |popped|;
      }
    } else if Exceeds(node.obj, minObj) {
      pruned' := pruned + [(node, minObj)];
    } else {
      expanded' := expanded + [(node, minObj)];
      queue' := Branch(queue', node, solve, split);
    }
  }

  /** The start of `BB`: the solved root is queued if it is feasible; there is no incumbent and nothing is popped. */
  ghost function Start<P, S>(root: P, solve: P -> Node<P, S>): Run<P, S> {
    Run(Feasible([solve(root)]), None, None, [], [], [], 0)
  }

  /** `step` applied `k` times. */
  ghost function Repeat<R>(step: R -> R, r: R, k: nat): R
    decreases k
  {
    if k == 0 then r else Repeat(step, step(r), k - 1)
  }

  /** Whatever `step` keeps holds all along the repetition. */
  lemma {:induction false} RepeatKeeps<R>(step: R -> R, keep: R -> bool, r: R, k: nat)
    requires forall q :: keep(q) ==> keep(step(q))
    requires keep(r)
    ensures keep(Repeat(step, r, k))
    decreases k
  {
    if k > 0 {
      RepeatKeeps(step, keep, step(r), k - 1);
    }
  }

  /**
   * When `step` leaves a finished state alone and otherwise adds one to its
   * `size`, `k` steps add at most `k`, and exactly `k` unless the result is
   * finished.
   */
  lemma {:induction false} RepeatCounts<R>(step: R -> R, size: R -> nat, done: R -> bool, r: R, k: nat)
    requires forall q :: done(q) ==> step(q) == q
    requires forall q :: !done(q) ==> size(step(q)) == size(q) + 1
    ensures size(Repeat(step, r, k)) <= size(r) + k
    ensures done(Repeat(step, r, k)) || size(Repeat(step, r, k)) == size(r) + k
    decreases k
  {
    if k > 0 {
      RepeatCounts(step, size, done, step(r), k - 1);
      if done(r) {
        RepeatFixed(step, r, k);
      }
    }
  }

  /** A state `step` leaves alone stays as it is. */
  lemma {:induction false} RepeatFixed<R>(step: R -> R, r: R, k: nat)
    requires step(r) == r
    ensures Repeat(step, r, k) == r
    decreases k
  {
    if k > 0 {
      RepeatFixed(step, r, k - 1);
    }
  }

  /** One pass of `BB`'s loop, which does nothing once the queue is empty. */
  ghost function Advance<P, S>(solve: P -> Node<P, S>, split: Node<P, S> -> (P, P)): Run<P, S> -> Run<P, S> {
    (r: Run<P, S>) => if r.queue == [] then r else Visit(solve, split, r)
  }

  /** The run after at most `k` more passes of `BB`'s loop, which stops early once the queue is empty. */
  ghost function Iterate<P, S>(solve: P -> Node<P, S>, split: Node<P, S> -> (P, P), r: Run<P, S>, k: nat): Run<P, S> {
    Repeat(Advance(solve, split), r, k)
  }

  /** `Inv` holds all along the iteration. */
  lemma IterateKeepsInv<P, S>(root: P, solve: P -> Node<P, S>, split: Node<P, S> -> (P, P), r: Run<P, S>, k: nat)
    requires Inv(root, solve, split, r)
    ensures Inv(root, solve, split, Iterate(solve, split, r, k))
  {
    var keep := (q: Run<P, S>) => Inv(root, solve, split, q);
    forall q | keep(q)
      ensures keep(Advance(solve, split)(q))
    {
      if q.queue != [] {
        VisitKeepsInv(root, solve, split, q);
      }
    }
    RepeatKeeps(Advance(solve, split), keep, r, k);
  }

  /** A pass pops exactly one node. */
  lemma VisitPops<P, S>(solve: P -> Node<P, S>, split: Node<P, S> -> (P, P), r: Run<P, S>)
    requires r.queue != []
    ensures |Visit(solve, split, r).popped| == |r.popped| + 1
  {
  }

  /**
   * The iteration pops one node per pass: at most `k` in all, and exactly
   * `k` unless it stopped on an empty queue.
   */
  lemma IterateStops<P, S>(solve: P -> Node<P, S>, split: Node<P, S> -> (P, P), r: Run<P, S>, k: nat)
    ensures var r' := Iterate(solve, split, r, k);
      && |r'.popped| <= |r.popped| + k
      && (r'.queue == [] || |r'.popped| == |r.popped| + k)
  {
    var size := (q: Run<P, S>) => |q.popped|;
    var done := (q: Run<P, S>) => q.queue == [];
    forall q | !done(q)
      ensures size(Advance(solve, split)(q)) == size(q) + 1
    {
      VisitPops(solve, split, q);
    }
    RepeatCounts(Advance(solve, split), size, done, r, k);
  }

  /**
   * What the incumbent of any run keeping `Inv` is: the first integer node
   * popped with the least objective among the integer nodes popped, or
   * `None` when no integer node was popped; every split node was within the
   * final incumbent's objective when it was split.
   */
  lemma RunIncumbent<P, S>(root: P, solve: P -> Node<P, S>, split: Node<P, S> -> (P, P), r: Run<P, S>)
    requires Inv(root, solve, split, r)
    ensures r.best.None? <==> forall k :: 0 <= k < |r.popped| ==> !r.popped[k].integer
    ensures r.best.Some? ==>
      && r.best.value.integer
      && (exists k :: 0 <= k < |r.popped| && r.popped[k] == r.best.value &&
            forall j :: 0 <= j < k && r.popped[j].integer ==> r.popped[j].obj > r.best.value.obj)
      && forall k :: 0 <= k < |r.popped| && r.popped[k].integer ==> r.best.value.obj <= r.popped[k].obj
    ensures forall k :: 0 <= k < |r.expanded| ==>
      && !r.expanded[k].0.integer && !Exceeds(r.expanded[k].0.obj, r.expanded[k].1)
      && NoLarger(if r.best.None? then None else Some(r.best.value.obj), r.expanded[k].1)
  {
    if r.best.Some? {
      assert r.popped[r.bestAt] == r.best.value;
    }
  }

  /**
   * Which nodes a stopped run has popped: none when the solved root is
   * infeasible; otherwise the solved root first (given any fuel); only
   * nodes ever queued, and all of them when the queue emptied before the
   * fuel ran out.
   */
  lemma RunCoverage<P, S>(root: P, solve: P -> Node<P, S>, split: Node<P, S> -> (P, P), fuel: nat, r: Run<P, S>)
    requires Inv(root, solve, split, r) && |r.popped| <= fuel && (r.queue == [] || |r.popped| == fuel)
    ensures solve(root).infeasible ==> r.best.None? && r.popped == []
    ensures fuel > 0 && !solve(root).infeasible ==> |r.popped| > 0 && r.popped[0] == solve(root)
    ensures multiset(r.popped) <= multiset(EverQueued(root, solve, split, r.expanded))
    ensures |r.popped| < fuel ==> multiset(r.popped) == multiset(EverQueued(root, solve, split, r.expanded))
  {
    if r.popped == [] {
      assert Feasible([solve(root)]) == Feasible([]) + if solve(root).infeasible then [] else [solve(root)];
    }
  }

  /** The start of `BB` satisfies `Inv`. */
  lemma InvStarts<P, S>(root: P, solve: P -> Node<P, S>, split: Node<P, S> -> (P, P))
    ensures Inv(root, solve, split, Start(root, solve))
  {
    assert Feasible([solve(root)]) == Feasible([]) + if solve(root).infeasible then [] else [solve(root)];
    assert Children(solve, split, Nodes([])) == [] && [solve(root)] + [] == [solve(root)];
  }

  /**
   * What `BB` returns after at most `fuel` pops, by the lemmas above: the
   * final run keeps `Inv`, pops at most `fuel` nodes, and stops with an empty
   * queue or after `fuel` pops, so `RunIncumbent` and `RunCoverage` apply.
   */
  lemma SearchOutcome<P, S>(root: P, solve: P -> Node<P, S>, split: Node<P, S> -> (P, P), fuel: nat)
    ensures var r := Iterate(solve, split, Start(root, solve), fuel);
      && Inv(root, solve, split, r) && |r.popped| <= fuel && (r.queue == [] || |r.popped| == fuel)
  {
    InvStarts(root, solve, split);
    IterateKeepsInv(root, solve, split, Start(root, solve), fuel);
    IterateStops(solve, split, Start(root, solve), fuel);
  }

  /**
   * `BB`, for at most `fuel` pops: the result is the incumbent of the run
   * `Iterate` gives from `Start`; `SearchOutcome`, `RunIncumbent` and
   * `RunCoverage` say what that incumbent is.
   */
  method Search<P, S>(root: P, solve: P -> Node<P, S>, split: Node<P, S> -> (P, P), fuel: nat)
    returns (best: Option<Node<P, S>>)
    ensures best == Iterate(solve, split, Start(root, solve), fuel).best
  {
    var queue := SolveAndPush([], root, solve);
    assert Feasible([solve(root)]) == Feasible([]) + if solve(root).infeasible then [] else [solve(root)];
    var minObj: Bound := None;
    best := None;
    ghost var popped, expanded, pruned, bestAt := [], [], [], 0;
    var steps := 0;
    while queue != [] && steps < fuel
      invariant steps <= fuel
      invariant Iterate(solve, split, Run(queue, best, minObj, popped, expanded, pruned, bestAt), fuel - steps) ==
        Iterate(solve, split, Start(root, solve), fuel)
      decreases fuel - steps
    {
      ghost var r := Run(queue, best, minObj, popped, expanded, pruned, bestAt);
      queue, best, minObj, popped, expanded, pruned, bestAt :=
        Pass(solve, split, queue, best, minObj, popped, expanded, pruned, bestAt);
      assert Advance(solve, split)(r) == Run(queue, best, minObj, popped, expanded, pruned, bestAt);
      steps := steps + 1;
    }
    if queue == [] {
      RepeatFixed(Advance(solve, split), Run(queue, best, minObj, popped, expanded, pruned, bestAt), fuel - steps);
    }
  }
}
