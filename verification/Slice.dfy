/**
 * The bounded slice: a breadth-first traversal with a node budget and a depth budget. The method follows the
 * traversal loop; its specification cuts the unbounded discovery order instead.
 */
module Slice {
  import opened Wrappers
  import Ordering
  import opened Relations
  import opened Discovery

  datatype Cause = NodeBudget | DepthBudget

  /** What a slice reports: visited nodes and selected rows in order, rejected far ends, why it stopped short. */
  datatype Outcome = Outcome(
    seen: seq<Handle>,
    edges: seq<Relation>,
    boundaries: seq<Handle>,
    reason: Option<Cause>)

  function Max(a: int, b: int): int {
    if a < b then b else a
  }

  // ---- Specification: where the budgets cut the unbounded order ----------------------------------------------

  /** A node that both budgets admit at position `i`. The target is always admitted. */
  predicate Admits(order: seq<Visit>, n: int, d: int, i: nat) {
    i < |order| && i < Max(1, n) && order[i].depth <= Max(0, d)
  }

  function CutFrom(order: seq<Visit>, n: int, d: int, i: nat): (c: nat)
    requires i <= |order|
    ensures i <= c <= |order|
    ensures forall j :: i <= j < c ==> Admits(order, n, d, j)
    ensures !Admits(order, n, d, c)
    decreases |order| - i
  {
    if Admits(order, n, d, i) then CutFrom(order, n, d, i + 1) else i
  }

  /** The length of the longest prefix of `order` that both budgets admit. */
  function Cut(order: seq<Visit>, n: int, d: int): nat {
    CutFrom(order, n, d, 0)
  }

  function Nodes(order: seq<Visit>): set<Handle> {
    set v | v in order :: v.node
  }

  /** All rows leaving `nodes`, node by node. */
  function Outgoing(adj: Adjacency, nodes: seq<Handle>): (r: seq<Relation>)
    ensures forall e :: e in r <==> exists i :: 0 <= i < |nodes| && e in adj(nodes[i])
  {
    if nodes == [] then []
    else
      var init := Outgoing(adj, nodes[..|nodes| - 1]);
      assert forall i :: 0 <= i < |nodes| - 1 ==> nodes[..|nodes| - 1][i] == nodes[i];
      init + adj(nodes[|nodes| - 1])
  }

  /** The rows whose far end was visited. */
  function Chosen(dir: Direction, es: seq<Relation>, visited: set<Handle>): (r: seq<Relation>)
    ensures forall e :: e in r <==> e in es && Far(dir, e) in visited
  {
    if es == [] then []
    else
      var init := Chosen(dir, es[..|es| - 1], visited);
      if Far(dir, es[|es| - 1]) in visited then init + [es[|es| - 1]] else init
  }

  /** The far ends that were not visited, one per row. */
  function Rejected(dir: Direction, es: seq<Relation>, visited: set<Handle>): (r: seq<Handle>)
    ensures forall h :: h in r <==> h !in visited && exists e :: e in es && Far(dir, e) == h
  {
    if es == [] then []
    else
      var init, last := Rejected(dir, es[..|es| - 1], visited), es[|es| - 1];
      assert forall e :: e in es <==> e in es[..|es| - 1] || e == last;
      if Far(dir, last) in visited then init else init + [Far(dir, last)]
  }

  /** Why the order was cut at `c`: the node budget only when the first node left out is shallow enough. */
  function ReasonAt(order: seq<Visit>, c: nat, d: int): Option<Cause> {
    if c >= |order| then None
    else if order[c].depth <= Max(0, d) then Some(NodeBudget)
    else Some(DepthBudget)
  }

  function CutOutcome(dir: Direction, adj: Adjacency, order: seq<Visit>, n: int, d: int): Outcome {
    var c := Cut(order, n, d);
    var seen := Names(order[..c]);
    var visited := Nodes(order[..c]);
    Outcome(seen,
            Chosen(dir, Outgoing(adj, seen), visited),
            Rejected(dir, Outgoing(adj, seen), visited),
            ReasonAt(order, c, d))
  }

  /** The target together with every node some row can lead to. */
  function Universe(rows: seq<Relation>, dir: Direction, root: Handle): set<Handle> {
    {root} + set e | e in rows :: Far(dir, e)
  }

  function Neighbours(rows: seq<Relation>, q: Query): Adjacency {
    node => Adjacent(rows, q, node)
  }

  /** The complete breadth-first order from `root`, without budgets. */
  function FullOrder(rows: seq<Relation>, q: Query, root: Handle): seq<Visit> {
    Order(q.dir, Neighbours(rows, q), root, |Universe(rows, q.dir, root)|)
  }

  function SliceOf(rows: seq<Relation>, q: Query, root: Handle, n: int, d: int): Outcome {
    CutOutcome(q.dir, Neighbours(rows, q), FullOrder(rows, q, root), n, d)
  }

  // ---- The loop invariant ------------------------------------------------------------------------------------

  /**
   * The discovered list `all` of the budgeted loop against the unbounded list `order`. Until the first rejection
   * the two are equal; from then on `all` is frozen and `order` runs ahead of it.
   */
  ghost predicate ListAgrees(all: seq<Visit>, order: seq<Visit>, reason: Option<Cause>, n: int, d: int) {
    && 0 < |all| <= Max(1, n)
    && all <= order
    && (forall i :: 0 <= i < |all| ==> all[i].depth <= Max(0, d))
    && (reason.None? ==> all == order)
    && (reason.Some? ==> |all| < |order| && reason == ReasonAt(order, |all|, d))
    && (reason == Some(NodeBudget) ==> |all| == Max(1, n))
  }

  /** The whole loop state after the rows `done`: the list, the selected rows and the rejected far ends. */
  ghost predicate Agrees(dir: Direction, all: seq<Visit>, order: seq<Visit>, done: seq<Relation>,
                         edges: seq<Relation>, boundaries: seq<Handle>, reason: Option<Cause>, n: int, d: int)
  {
    && ListAgrees(all, order, reason, n, d)
    && (reason.None? <==> boundaries == [])
    && edges == Chosen(dir, done, Nodes(all))
    && boundaries == Rejected(dir, done, Nodes(all))
  }

  lemma AgreesInitially(dir: Direction, adj: Adjacency, root: Handle, n: int, d: int)
    ensures Agrees(dir, [Visit(root, 0)], Order(dir, adj, root, 0), Outgoing(adj, []), [], [], None, n, d)
    ensures Nodes([Visit(root, 0)]) == {root}
  {
    assert Visit(root, 0) in [Visit(root, 0)];
  }

  lemma AgreesPrefix(dir: Direction, all: seq<Visit>, order: seq<Visit>, done: seq<Relation>, edges: seq<Relation>,
                     boundaries: seq<Handle>, reason: Option<Cause>, n: int, d: int)
    requires Agrees(dir, all, order, done, edges, boundaries, reason, n, d)
    ensures all <= order
  {
  }

  lemma DistinctPrefix(all: seq<Visit>, order: seq<Visit>)
    requires all <= order && Distinct(order)
    ensures Distinct(all)
  {
  }

  lemma ChosenStep(dir: Direction, done: seq<Relation>, e: Relation, visited: set<Handle>)
    ensures Chosen(dir, done + [e], visited) ==
            if Far(dir, e) in visited then Chosen(dir, done, visited) + [e] else Chosen(dir, done, visited)
    ensures Rejected(dir, done + [e], visited) ==
            if Far(dir, e) in visited then Rejected(dir, done, visited) else Rejected(dir, done, visited) + [Far(dir, e)]
  {
    assert (done + [e])[..|done|] == done;
  }

  lemma {:induction false} ChosenAll(dir: Direction, done: seq<Relation>, visited: set<Handle>)
    requires forall e :: e in done ==> Far(dir, e) in visited
    ensures Chosen(dir, done, visited) == done && Rejected(dir, done, visited) == []
  {
    if done != [] {
      assert done == done[..|done| - 1] + [done[|done| - 1]];
      ChosenAll(dir, done[..|done| - 1], visited);
    }
  }

  /** A row to a node already known is selected and changes nothing else, at any depth and under any budget. */
  lemma KnownKeeps(dir: Direction, all: seq<Visit>, order: seq<Visit>, done: seq<Relation>, edges: seq<Relation>,
                   boundaries: seq<Handle>, reason: Option<Cause>, n: int, d: int, depth: nat, e: Relation)
    requires Agrees(dir, all, order, done, edges, boundaries, reason, n, d)
    requires Far(dir, e) in Nodes(all)
    ensures Agrees(dir, all, Meet(dir, order, depth + 1, e), done + [e], edges + [e], boundaries, reason, n, d)
  {
    var v :| v in all && v.node == Far(dir, e);
    var i :| 0 <= i < |all| && all[i] == v;
    assert order[i].node == Far(dir, e);
    ChosenStep(dir, done, e, Nodes(all));
  }

  /** A rejection freezes the list; the first one fixes the reason. */
  lemma ListRejects(dir: Direction, all: seq<Visit>, order: seq<Visit>, reason: Option<Cause>, n: int, d: int,
                    depth: nat, e: Relation)
    requires ListAgrees(all, order, reason, n, d) && Layered(order, depth + 1)
    requires Far(dir, e) !in Nodes(all)
    requires depth >= d || |all| >= n
    ensures ListAgrees(all, Meet(dir, order, depth + 1, e),
                       if reason.Some? then reason else Some(if depth >= d then DepthBudget else NodeBudget), n, d)
  {
    if reason.None? {
      forall i | 0 <= i < |order| ensures order[i].node != Far(dir, e) {
        assert all[i] in all;
      }
    }
  }

  lemma RejectKeeps(dir: Direction, all: seq<Visit>, order: seq<Visit>, done: seq<Relation>, edges: seq<Relation>,
                    boundaries: seq<Handle>, reason: Option<Cause>, n: int, d: int, depth: nat, e: Relation)
    requires Agrees(dir, all, order, done, edges, boundaries, reason, n, d)
    requires Layered(order, depth + 1)
    requires Far(dir, e) !in Nodes(all)
    requires depth >= d || |all| >= n
    ensures Agrees(dir, all, Meet(dir, order, depth + 1, e), done + [e], edges, boundaries + [Far(dir, e)],
                   if reason.Some? then reason else Some(if depth >= d then DepthBudget else NodeBudget), n, d)
  {
    hide ListAgrees, Layered, Chosen, Rejected, Nodes, Meet;
    ListRejects(dir, all, order, reason, n, d, depth, e);
    ChosenStep(dir, done, e, Nodes(all));
  }

  /** A node that both budgets admit extends the two lists alike: nothing can have been rejected before it. */
  lemma ListAdmits(dir: Direction, all: seq<Visit>, order: seq<Visit>, reason: Option<Cause>, n: int, d: int,
                   depth: nat, e: Relation)
    requires ListAgrees(all, order, reason, n, d) && Layered(order, depth + 1)
    requires Far(dir, e) !in Nodes(all)
    requires depth < d && |all| < n
    ensures reason.None?
    ensures ListAgrees(all + [Visit(Far(dir, e), depth + 1)], Meet(dir, order, depth + 1, e), None, n, d)
  {
    assert all == order;
    forall i | 0 <= i < |order| ensures order[i].node != Far(dir, e) {
      assert all[i] in all;
    }
  }

  lemma AdmitKeeps(dir: Direction, all: seq<Visit>, order: seq<Visit>, done: seq<Relation>, edges: seq<Relation>,
                   boundaries: seq<Handle>, reason: Option<Cause>, n: int, d: int, depth: nat, e: Relation)
    requires Agrees(dir, all, order, done, edges, boundaries, reason, n, d)
    requires Layered(order, depth + 1)
    requires Far(dir, e) !in Nodes(all)
    requires depth < d && |all| < n
    ensures Agrees(dir, all + [Visit(Far(dir, e), depth + 1)], Meet(dir, order, depth + 1, e), done + [e],
                   edges + [e], boundaries, reason, n, d)
  {
    hide ListAgrees, Layered, Chosen, Rejected, Nodes, Meet;
    var next := Visit(Far(dir, e), depth + 1);
    ListAdmits(dir, all, order, reason, n, d, depth, e);
    forall x | x in done ensures Far(dir, x) in Nodes(all) {
      assert Far(dir, x) !in Rejected(dir, done, Nodes(all));
    }
    NodesGrow(all, next);
    ChosenAll(dir, done, Nodes(all));
    ChosenAll(dir, done, Nodes(all + [next]));
    ChosenStep(dir, done, e, Nodes(all + [next]));
  }

  lemma NodesGrow(all: seq<Visit>, v: Visit)
    ensures Nodes(all + [v]) == Nodes(all) + {v.node}
  {
    assert v in all + [v];
    forall h | h in Nodes(all) ensures h in Nodes(all + [v]) {
      var u :| u in all && u.node == h;
      assert u in all + [v];
    }
  }

  lemma {:induction false} NodesCount(order: seq<Visit>)
    requires Distinct(order)
    ensures |Nodes(order)| == |order|
  {
    if order != [] {
      var init, last := order[..|order| - 1], order[|order| - 1];
      NodesCount(init);
      assert Nodes(order) == Nodes(init) + {last.node} by {
        assert order == init + [last];
      }
      assert last.node !in Nodes(init);
    }
  }

  // ---- The traversal -----------------------------------------------------------------------------------------

  lemma NeighboursWithin(rows: seq<Relation>, q: Query, root: Handle)
    ensures Within(q.dir, Neighbours(rows, q), Universe(rows, q.dir, root)) && root in Universe(rows, q.dir, root)
  {
  }

  lemma SliceOfUnfolds(rows: seq<Relation>, q: Query, root: Handle, n: int, d: int)
    ensures SliceOf(rows, q, root, n, d) ==
            CutOutcome(q.dir, Neighbours(rows, q),
                       Order(q.dir, Neighbours(rows, q), root, |Universe(rows, q.dir, root)|), n, d)
  {
    hide CutOutcome, Order;
  }

  lemma NeighboursOf(rows: seq<Relation>, q: Query, node: Handle)
    ensures Neighbours(rows, q)(node) == Adjacent(rows, q, node)
  {
  }

  lemma {:induction false} CutIs(order: seq<Visit>, n: int, d: int, c: nat, i: nat)
    requires i <= c <= |order|
    requires forall j :: i <= j < c ==> Admits(order, n, d, j)
    requires !Admits(order, n, d, c)
    ensures CutFrom(order, n, d, i) == c
    decreases c - i
  {
    if i < c {
      CutIs(order, n, d, c, i + 1);
    }
  }

  /** When the queue is empty the list is exactly the cut of the complete order. */
  lemma AgreesFinally(dir: Direction, adj: Adjacency, root: Handle, nodes: set<Handle>, all: seq<Visit>,
                      edges: seq<Relation>, boundaries: seq<Handle>, reason: Option<Cause>, n: int, d: int)
    requires Within(dir, adj, nodes) && root in nodes
    requires Agrees(dir, all, Order(dir, adj, root, |all|), Outgoing(adj, Names(all)), edges, boundaries, reason, n, d)
    ensures Outcome(Names(all), edges, boundaries, reason) ==
            CutOutcome(dir, adj, Order(dir, adj, root, |nodes|), n, d)
  {
    var k := |all|;
    var order, full := Order(dir, adj, root, k), Order(dir, adj, root, |nodes|);
    OrderCompletes(dir, adj, root, nodes, k);
    OrderGrows(dir, adj, root, k, |nodes|);
    if reason.None? {
      OrderSettles(dir, adj, root, k, |nodes|);
    }
    hide Order, Outgoing, Chosen, Rejected, Nodes;
    assert order <= full;
    assert all == full[..k];
    forall j | 0 <= j < k ensures Admits(full, n, d, j) {
      assert full[j] == all[j];
    }
    assert !Admits(full, n, d, k) by {
      assert k < |order| ==> full[k] == order[k];
    }
    CutIs(full, n, d, k, 0);
  }

  lemma ExpandNothing(dir: Direction, order: seq<Visit>, depth: nat)
    ensures Expand(dir, order, depth, []) == order
  {
  }

  /** One more row of the visited node: the reference list meets it and the rows handled so far gain it. */
  lemma RowStep(dir: Direction, before: seq<Visit>, depth: nat, past: seq<Relation>, es: seq<Relation>, j: nat)
    requires j < |es|
    ensures Expand(dir, before, depth, es[..j + 1]) == Meet(dir, Expand(dir, before, depth, es[..j]), depth, es[j])
    ensures past + es[..j + 1] == past + es[..j] + [es[j]]
  {
    assert es[..j + 1][..j] == es[..j];
  }

  lemma NothingEligible(rows: seq<Relation>, q: Query, node: Handle)
    requires q.functionId.None? || q.kinds == {}
    ensures Adjacent(rows, q, node) == []
  {
    assert forall e :: e !in Adjacent(rows, q, node);
    Ordering.SomeElement(Adjacent(rows, q, node));
  }

  /** The queue is the part of the discovered list that has not been visited. */
  ghost predicate Pending(all: seq<Visit>, seen: seq<Handle>, queue: seq<Visit>) {
    |seen| <= |all| && seen == Names(all[..|seen|]) && queue == all[|seen|..]
  }

  lemma PendingPop(all: seq<Visit>, seen: seq<Handle>, queue: seq<Visit>)
    requires Pending(all, seen, queue) && queue != []
    ensures |seen| < |all| && queue[0] == all[|seen|]
    ensures Pending(all, seen + [queue[0].node], queue[1..])
  {
  }

  lemma PendingDone(all: seq<Visit>, seen: seq<Handle>, queue: seq<Visit>)
    requires Pending(all, seen, queue) && queue == []
    ensures |seen| == |all| && seen == Names(all)
  {
    assert all[..|all|] == all;
  }

  lemma PendingPush(all: seq<Visit>, seen: seq<Handle>, queue: seq<Visit>, v: Visit)
    requires Pending(all, seen, queue)
    ensures Pending(all + [v], seen, queue + [v])
    ensures Nodes(all + [v]) == Nodes(all) + {v.node}
  {
    assert (all + [v])[..|seen|] == all[..|seen|];
    assert (all + [v])[|seen|..] == all[|seen|..] + [v];
    NodesGrow(all, v);
  }

  lemma OutgoingStep(adj: Adjacency, seen: seq<Handle>, node: Handle)
    ensures Outgoing(adj, seen + [node]) == Outgoing(adj, seen) + adj(node)
  {
    assert (seen + [node])[..|seen|] == seen;
  }

  lemma OrderStep(dir: Direction, adj: Adjacency, root: Handle, k: nat, v: Visit)
    requires k < |Order(dir, adj, root, k)| && Order(dir, adj, root, k)[k] == v
    ensures Order(dir, adj, root, k + 1) == Expand(dir, Order(dir, adj, root, k), v.depth + 1, adj(v.node))
  {
    hide Expand;
  }

  lemma OrderBounded(dir: Direction, adj: Adjacency, root: Handle, nodes: set<Handle>, k: nat)
    requires Within(dir, adj, nodes) && root in nodes
    requires k < |Order(dir, adj, root, k)|
    ensures var before := Order(dir, adj, root, k);
            && Distinct(before) && Layered(before, before[k].depth + 1)
            && |before| <= |nodes|
  {
    OrderShape(dir, adj, root, k);
    OrderCompletes(dir, adj, root, nodes, k);
    hide Distinct, Layered, Order;
  }

  /** The state of the traversal loop between two visits. */
  ghost predicate Traversing(dir: Direction, adj: Adjacency, root: Handle, n: int, d: int, all: seq<Visit>,
                             queue: seq<Visit>, o: Outcome)
  {
    && Pending(all, o.seen, queue)
    && Agrees(dir, all, Order(dir, adj, root, |o.seen|), Outgoing(adj, o.seen), o.edges, o.boundaries, o.reason, n, d)
  }

  lemma TraversingBegins(dir: Direction, adj: Adjacency, root: Handle, n: int, d: int)
    ensures Traversing(dir, adj, root, n, d, [Visit(root, 0)], [Visit(root, 0)], Outcome([], [], [], None))
    ensures Nodes([Visit(root, 0)]) == {root}
  {
    AgreesInitially(dir, adj, root, n, d);
  }

  lemma TraversingVisits(dir: Direction, adj: Adjacency, root: Handle, nodes: set<Handle>, n: int, d: int,
                         all: seq<Visit>, queue: seq<Visit>, o: Outcome)
    requires Within(dir, adj, nodes) && root in nodes
    requires Traversing(dir, adj, root, n, d, all, queue, o) && queue != []
    ensures var k, v := |o.seen|, queue[0];
            var before := Order(dir, adj, root, k);
            && k < |nodes| && k < |before| && before[k] == v
            && Pending(all, o.seen + [v.node], queue[1..])
            && Distinct(before) && Layered(before, v.depth + 1)
            && Agrees(dir, all, before, Outgoing(adj, o.seen), o.edges, o.boundaries, o.reason, n, d)
  {
    hide Agrees, Pending, Distinct, Layered, Order, Outgoing;
    PendingPop(all, o.seen, queue);
    AgreesPrefix(dir, all, Order(dir, adj, root, |o.seen|), Outgoing(adj, o.seen), o.edges, o.boundaries, o.reason, n, d);
    OrderBounded(dir, adj, root, nodes, |o.seen|);
  }

  lemma TraversingResumes(dir: Direction, adj: Adjacency, root: Handle, n: int, d: int, all: seq<Visit>,
                          seen: seq<Handle>, v: Visit, queue: seq<Visit>, o: Outcome)
    requires |seen| < |Order(dir, adj, root, |seen|)| && Order(dir, adj, root, |seen|)[|seen|] == v
    requires o.seen == seen + [v.node] && Pending(all, o.seen, queue)
    requires Agrees(dir, all, Expand(dir, Order(dir, adj, root, |seen|), v.depth + 1, adj(v.node)),
                    Outgoing(adj, seen) + adj(v.node), o.edges, o.boundaries, o.reason, n, d)
    ensures Traversing(dir, adj, root, n, d, all, queue, o)
  {
    OutgoingStep(adj, seen, v.node);
    OrderStep(dir, adj, root, |seen|, v);
    hide Agrees, Pending, Order, Outgoing, Expand;
  }

  lemma TraversingEnds(dir: Direction, adj: Adjacency, root: Handle, nodes: set<Handle>, n: int, d: int,
                       all: seq<Visit>, o: Outcome)
    requires Within(dir, adj, nodes) && root in nodes
    requires Traversing(dir, adj, root, n, d, all, [], o)
    ensures o == CutOutcome(dir, adj, Order(dir, adj, root, |nodes|), n, d)
  {
    PendingDone(all, o.seen, []);
    AgreesFinally(dir, adj, root, nodes, all, o.edges, o.boundaries, o.reason, n, d);
    hide CutOutcome, Order;
  }

  /** The traversal loop of a slice. */
  method SliceOn(rows: seq<Relation>, q: Query, root: Handle, budgetNodes: int, budgetDepth: int)
    returns (r: Outcome)
    ensures r == SliceOf(rows, q, root, budgetNodes, budgetDepth)
  {
    hide *;
    var queue := [Visit(root, 0)];
    var seen: seq<Handle> := [];
    var known := {root};
    var edges: seq<Relation> := [];
    var boundaries: seq<Handle> := [];
    var reason: Option<Cause> := None;
    ghost var all, adj, nodes := queue, Neighbours(rows, q), Universe(rows, q.dir, root);
    NeighboursWithin(rows, q, root);
    TraversingBegins(q.dir, adj, root, budgetNodes, budgetDepth);
    while queue != []
      invariant known == Nodes(all)
      invariant Traversing(q.dir, adj, root, budgetNodes, budgetDepth, all, queue,
                           Outcome(seen, edges, boundaries, reason))
      decreases |nodes| - |seen|
    {
      ghost var before, past, earlier, v := Order(q.dir, adj, root, |seen|), Outgoing(adj, seen), seen, queue[0];
      TraversingVisits(q.dir, adj, root, nodes, budgetNodes, budgetDepth, all, queue,
                       Outcome(seen, edges, boundaries, reason));
      var node, depth := queue[0].node, queue[0].depth;
      NeighboursOf(rows, q, node);
      queue := queue[1..];
      seen := seen + [node];
      if q.functionId.None? || q.kinds == {} {
        NothingEligible(rows, q, node);
        ExpandNothing(q.dir, before, depth + 1);
        assert past + [] == past;
      } else {
        edges, boundaries, reason, known, queue, all :=
          Scan(rows, q, node, depth, edges, boundaries, reason, known, queue, budgetNodes, budgetDepth,
               all, before, past, seen);
      }
      TraversingResumes(q.dir, adj, root, budgetNodes, budgetDepth, all, earlier, v, queue,
                        Outcome(seen, edges, boundaries, reason));
    }
    r := Outcome(seen, edges, boundaries, reason);
    TraversingEnds(q.dir, adj, root, nodes, budgetNodes, budgetDepth, all, r);
    SliceOfUnfolds(rows, q, root, budgetNodes, budgetDepth);
  }

  /** The inner loop: every row of the visited node in query order. */
  method Scan(rows: seq<Relation>, q: Query, node: Handle, depth: nat,
              edges0: seq<Relation>, boundaries0: seq<Handle>, reason0: Option<Cause>, known0: set<Handle>,
              queue0: seq<Visit>, budgetNodes: int, budgetDepth: int,
              ghost all0: seq<Visit>, ghost before: seq<Visit>, ghost past: seq<Relation>, ghost seen: seq<Handle>)
    returns (edges: seq<Relation>, boundaries: seq<Handle>, reason: Option<Cause>, known: set<Handle>,
             queue: seq<Visit>, ghost all: seq<Visit>)
    requires Distinct(before) && Layered(before, depth + 1)
    requires Pending(all0, seen, queue0) && known0 == Nodes(all0)
    requires Agrees(q.dir, all0, before, past, edges0, boundaries0, reason0, budgetNodes, budgetDepth)
    ensures Pending(all, seen, queue) && known == Nodes(all)
    ensures Agrees(q.dir, all, Expand(q.dir, before, depth + 1, Adjacent(rows, q, node)),
                   past + Adjacent(rows, q, node), edges, boundaries, reason, budgetNodes, budgetDepth)
  {
    hide *;
    edges, boundaries, reason, known, queue, all := edges0, boundaries0, reason0, known0, queue0, all0;
    var es := Adjacent(rows, q, node);
    ExpandNothing(q.dir, before, depth + 1);
    assert es[..0] == [] && past + es[..0] == past;
    for j := 0 to |es|
      invariant Pending(all, seen, queue) && known == Nodes(all)
      invariant Agrees(q.dir, all, Expand(q.dir, before, depth + 1, es[..j]), past + es[..j],
                       edges, boundaries, reason, budgetNodes, budgetDepth)
    {
      ghost var order, done := Expand(q.dir, before, depth + 1, es[..j]), past + es[..j];
      ExpandShape(q.dir, before, depth + 1, es[..j]);
      AgreesPrefix(q.dir, all, order, done, edges, boundaries, reason, budgetNodes, budgetDepth);
      DistinctPrefix(all, order);
      NodesCount(all);
      RowStep(q.dir, before, depth + 1, past, es, j);
      var next := Far(q.dir, es[j]);
      if depth >= budgetDepth {
        if next !in known {
          RejectKeeps(q.dir, all, order, done, edges, boundaries, reason, budgetNodes, budgetDepth, depth, es[j]);
          boundaries := boundaries + [next];
          if reason.None? {
            reason := Some(DepthBudget);
          }
          continue;
        }
      } else if next !in known && |known| >= budgetNodes {
        RejectKeeps(q.dir, all, order, done, edges, boundaries, reason, budgetNodes, budgetDepth, depth, es[j]);
        boundaries := boundaries + [next];
        if reason.None? {
          reason := Some(NodeBudget);
        }
        continue;
      }
      if next in known {
        KnownKeeps(q.dir, all, order, done, edges, boundaries, reason, budgetNodes, budgetDepth, depth, es[j]);
      } else {
        AdmitKeeps(q.dir, all, order, done, edges, boundaries, reason, budgetNodes, budgetDepth, depth, es[j]);
      }
      edges := edges + [es[j]];
      if next !in known {
        PendingPush(all, seen, queue, Visit(next, depth + 1));
        known := known + {next};
        queue := queue + [Visit(next, depth + 1)];
        all := all + [Visit(next, depth + 1)];
      }
    }
    assert es[..|es|] == es;
  }
}
