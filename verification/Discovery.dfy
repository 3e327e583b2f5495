/**
 * Unbounded breadth-first discovery, the reference a budgeted slice is measured against. The discovered nodes
 * form a growing list; the node at position k is expanded in step k.
 */
module Discovery {
  import opened Relations

  /** The rows leaving each node, already in query order. */
  type Adjacency = Handle -> seq<Relation>

  datatype Visit = Visit(node: Handle, depth: nat)

  predicate Found(order: seq<Visit>, node: Handle) {
    exists i :: 0 <= i < |order| && order[i].node == node
  }

  function Names(order: seq<Visit>): (r: seq<Handle>)
    ensures |r| == |order|
    ensures forall i :: 0 <= i < |r| ==> r[i] == order[i].node
  {
    seq(|order|, i requires 0 <= i < |order| => order[i].node)
  }

  /** Appends the far end of one row unless it is known. */
  function Meet(dir: Direction, order: seq<Visit>, depth: nat, e: Relation): seq<Visit> {
    if Found(order, Far(dir, e)) then order else order + [Visit(Far(dir, e), depth)]
  }

  /** Appends the unknown far ends of `es`, in order, at the given depth. */
  function Expand(dir: Direction, order: seq<Visit>, depth: nat, es: seq<Relation>): seq<Visit> {
    if es == [] then order
    else Meet(dir, Expand(dir, order, depth, es[..|es| - 1]), depth, es[|es| - 1])
  }

  /** The discovered list after expanding its first `k` nodes. */
  function Order(dir: Direction, adj: Adjacency, root: Handle, k: nat): seq<Visit> {
    if k == 0 then [Visit(root, 0)]
    else
      var o := Order(dir, adj, root, k - 1);
      if k - 1 < |o| then Expand(dir, o, o[k - 1].depth + 1, adj(o[k - 1].node)) else o
  }

  // ---- Shape of the list -------------------------------------------------------------------------------------

  predicate Distinct(order: seq<Visit>) {
    forall i, j :: 0 <= i < j < |order| ==> order[i].node != order[j].node
  }

  /** Depths never fall along the list, and none exceeds `top`. */
  predicate Layered(order: seq<Visit>, top: nat) {
    && (forall i, j :: 0 <= i < j < |order| ==> order[i].depth <= order[j].depth)
    && (forall i :: 0 <= i < |order| ==> order[i].depth <= top)
  }

  lemma {:induction false} ExpandGrows(dir: Direction, order: seq<Visit>, depth: nat, es: seq<Relation>)
    ensures order <= Expand(dir, order, depth, es)
    ensures forall i :: |order| <= i < |Expand(dir, order, depth, es)| ==> Expand(dir, order, depth, es)[i].depth == depth
  {
    hide Found;
    if es != [] {
      ExpandGrows(dir, order, depth, es[..|es| - 1]);
    }
  }

  lemma FoundMeet(dir: Direction, order: seq<Visit>, depth: nat, e: Relation, h: Handle)
    ensures Found(Meet(dir, order, depth, e), h) <==> Found(order, h) || h == Far(dir, e)
  {
    var after := Meet(dir, order, depth, e);
    if Found(order, h) {
      var i :| 0 <= i < |order| && order[i].node == h;
      assert after[i] == order[i];
    }
    if h == Far(dir, e) && !Found(order, h) {
      assert after[|order|].node == h;
    }
  }

  /** The list gains exactly the far ends of the rows. */
  lemma {:induction false} ExpandFound(dir: Direction, order: seq<Visit>, depth: nat, es: seq<Relation>, h: Handle)
    ensures Found(Expand(dir, order, depth, es), h) <==> Found(order, h) || exists e :: e in es && Far(dir, e) == h
  {
    hide Found, Meet;
    if es != [] {
      var init, last := es[..|es| - 1], es[|es| - 1];
      ExpandFound(dir, order, depth, init, h);
      FoundMeet(dir, Expand(dir, order, depth, init), depth, last, h);
      assert forall e :: e in es <==> e in init || e == last;
    }
  }

  lemma {:induction false} ExpandDistinct(dir: Direction, order: seq<Visit>, depth: nat, es: seq<Relation>)
    requires Distinct(order)
    ensures Distinct(Expand(dir, order, depth, es))
  {
    if es != [] {
      ExpandDistinct(dir, order, depth, es[..|es| - 1]);
    }
  }

  lemma ExpandShape(dir: Direction, order: seq<Visit>, depth: nat, es: seq<Relation>)
    requires Distinct(order) && Layered(order, depth)
    ensures Distinct(Expand(dir, order, depth, es)) && Layered(Expand(dir, order, depth, es), depth)
  {
    hide Expand, Distinct;
    ExpandDistinct(dir, order, depth, es);
    ExpandGrows(dir, order, depth, es);
    var after := Expand(dir, order, depth, es);
    forall i | 0 <= i < |after| ensures after[i].depth <= depth && (i < |order| ==> after[i] == order[i]) {
      assert after[..|order|] == order;
    }
  }

  /** A node that expansion added is the far end of one of the rows. */
  lemma ExpandAdded(dir: Direction, order: seq<Visit>, depth: nat, es: seq<Relation>, i: nat)
    requires |order| <= i < |Expand(dir, order, depth, es)| && Distinct(order)
    ensures exists e :: e in es && Far(dir, e) == Expand(dir, order, depth, es)[i].node
  {
    hide Expand;
    var after := Expand(dir, order, depth, es);
    ExpandDistinct(dir, order, depth, es);
    ExpandGrows(dir, order, depth, es);
    assert Found(after, after[i].node);
    ExpandFound(dir, order, depth, es, after[i].node);
    assert forall j :: 0 <= j < |order| ==> order[j] == after[j];
  }

  /** The deepest layer the list may hold while node `k` is the next to expand. */
  function Top(order: seq<Visit>, k: nat): nat {
    if k < |order| then order[k].depth + 1 else if order == [] then 0 else order[|order| - 1].depth
  }

  /** The list starts at `root`, is free of repetitions and is at most two layers deep from node `k` on. */
  predicate Shaped(o: seq<Visit>, root: Handle, k: nat) {
    |o| > 0 && o[0] == Visit(root, 0) && Distinct(o) && Layered(o, Top(o, k))
  }

  lemma TopTightens(o: seq<Visit>, k: nat)
    requires k < |o| && Layered(o, o[k].depth + 1)
    ensures Layered(o, Top(o, k + 1))
  {
    if k + 1 == |o| {
      assert forall i :: 0 <= i < |o| - 1 ==> o[i].depth <= o[|o| - 1].depth;
    }
  }

  lemma ExpandShaped(dir: Direction, o: seq<Visit>, root: Handle, k: nat, es: seq<Relation>)
    requires k < |o| && Shaped(o, root, k)
    ensures Shaped(Expand(dir, o, o[k].depth + 1, es), root, k + 1)
  {
    var after := Expand(dir, o, o[k].depth + 1, es);
    ExpandShape(dir, o, o[k].depth + 1, es);
    assert o <= after by {
      ExpandGrows(dir, o, o[k].depth + 1, es);
    }
    hide Expand, Distinct, Layered;
    assert after[0] == o[0] && after[k] == o[k];
    TopTightens(after, k);
  }

  lemma FirstShaped(root: Handle)
    ensures Shaped([Visit(root, 0)], root, 0)
  {
  }

  lemma {:induction false} OrderShape(dir: Direction, adj: Adjacency, root: Handle, k: nat)
    ensures Shaped(Order(dir, adj, root, k), root, k)
  {
    hide Expand, Distinct, Layered;
    if k == 0 {
      FirstShaped(root);
    } else {
      OrderShape(dir, adj, root, k - 1);
      var o := Order(dir, adj, root, k - 1);
      if k - 1 < |o| {
        ExpandShaped(dir, o, root, k - 1, adj(o[k - 1].node));
      } else {
        assert Top(o, k) == Top(o, k - 1);
      }
    }
  }

  lemma {:induction false} OrderGrows(dir: Direction, adj: Adjacency, root: Handle, k: nat, l: nat)
    requires k <= l
    ensures Order(dir, adj, root, k) <= Order(dir, adj, root, l)
    decreases l
  {
    hide Expand;
    if k < l {
      OrderGrows(dir, adj, root, k, l - 1);
      var o := Order(dir, adj, root, l - 1);
      if l - 1 < |o| {
        ExpandGrows(dir, o, o[l - 1].depth + 1, adj(o[l - 1].node));
      }
    }
  }

  /** Once every discovered node has been expanded the list no longer changes. */
  lemma {:induction false} OrderSettles(dir: Direction, adj: Adjacency, root: Handle, k: nat, l: nat)
    requires |Order(dir, adj, root, k)| <= k <= l
    ensures Order(dir, adj, root, l) == Order(dir, adj, root, k)
    decreases l
  {
    if k < l {
      OrderSettles(dir, adj, root, k, l - 1);
    }
  }

  // ---- Finiteness --------------------------------------------------------------------------------------------

  /** Every row leads to a node of `nodes`. */
  ghost predicate Within(dir: Direction, adj: Adjacency, nodes: set<Handle>) {
    forall n, e :: e in adj(n) ==> Far(dir, e) in nodes
  }

  lemma {:induction false} OrderWithin(dir: Direction, adj: Adjacency, root: Handle, nodes: set<Handle>, k: nat)
    requires Within(dir, adj, nodes) && root in nodes
    ensures forall i :: 0 <= i < |Order(dir, adj, root, k)| ==> Order(dir, adj, root, k)[i].node in nodes
  {
    hide Expand, Distinct;
    if k > 0 {
      OrderWithin(dir, adj, root, nodes, k - 1);
      var o := Order(dir, adj, root, k - 1);
      if k - 1 < |o| {
        var depth, es := o[k - 1].depth + 1, adj(o[k - 1].node);
        ExpandGrows(dir, o, depth, es);
        OrderDistinct(dir, adj, root, k - 1);
        forall i | |o| <= i < |Expand(dir, o, depth, es)| ensures Expand(dir, o, depth, es)[i].node in nodes {
          ExpandAdded(dir, o, depth, es, i);
        }
      }
    }
  }

  lemma {:induction false} DistinctFits(order: seq<Visit>, nodes: set<Handle>)
    requires Distinct(order)
    requires forall i :: 0 <= i < |order| ==> order[i].node in nodes
    ensures |order| <= |nodes|
  {
    if order != [] {
      var last := order[|order| - 1];
      DistinctFits(order[..|order| - 1], nodes - {last.node});
    }
  }

  /** The complete unbounded order: expanding as many nodes as exist leaves nothing to expand. */
  lemma OrderCompletes(dir: Direction, adj: Adjacency, root: Handle, nodes: set<Handle>, k: nat)
    requires Within(dir, adj, nodes) && root in nodes
    ensures |Order(dir, adj, root, k)| <= |nodes|
    ensures k >= |nodes| ==> Order(dir, adj, root, k) == Order(dir, adj, root, |nodes|)
  {
    OrderShape(dir, adj, root, k);
    OrderWithin(dir, adj, root, nodes, k);
    DistinctFits(Order(dir, adj, root, k), nodes);
    OrderShape(dir, adj, root, |nodes|);
    OrderWithin(dir, adj, root, nodes, |nodes|);
    DistinctFits(Order(dir, adj, root, |nodes|), nodes);
    if k >= |nodes| {
      OrderSettles(dir, adj, root, |nodes|, k);
    }
  }

  // ---- Meaning of the list: reachability and distance --------------------------------------------------------

  /** One row leads from `a` to `b`. */
  ghost predicate Step(dir: Direction, adj: Adjacency, a: Handle, b: Handle) {
    exists e :: e in adj(a) && Far(dir, e) == b
  }

  /** A walk along rows. Its length is the number of rows used. */
  ghost predicate Walk(dir: Direction, adj: Adjacency, p: seq<Handle>, a: Handle, b: Handle) {
    && |p| > 0 && p[0] == a && p[|p| - 1] == b
    && forall i :: 0 <= i < |p| - 1 ==> Step(dir, adj, p[i], p[i + 1])
  }

  ghost predicate ReachableWithin(dir: Direction, adj: Adjacency, a: Handle, b: Handle, steps: nat) {
    exists p :: Walk(dir, adj, p, a, b) && |p| - 1 <= steps
  }

  ghost predicate Reachable(dir: Direction, adj: Adjacency, a: Handle, b: Handle) {
    exists p :: Walk(dir, adj, p, a, b)
  }

  lemma WalkExtends(dir: Direction, adj: Adjacency, p: seq<Handle>, a: Handle, b: Handle, c: Handle)
    requires Walk(dir, adj, p, a, b) && Step(dir, adj, b, c)
    ensures Walk(dir, adj, p + [c], a, c)
  {
  }

  /** `v` is reached from `root` by a walk exactly as long as its depth. */
  ghost predicate Reached(dir: Direction, adj: Adjacency, root: Handle, v: Visit) {
    exists p :: Walk(dir, adj, p, root, v.node) && |p| == v.depth + 1
  }

  lemma ExpandReached(dir: Direction, adj: Adjacency, root: Handle, o: seq<Visit>, from: Visit, i: nat)
    requires Reached(dir, adj, root, from) && Distinct(o)
    requires |o| <= i < |Expand(dir, o, from.depth + 1, adj(from.node))|
    ensures Reached(dir, adj, root, Expand(dir, o, from.depth + 1, adj(from.node))[i])
  {
    hide Expand, Distinct, Walk;
    ExpandGrows(dir, o, from.depth + 1, adj(from.node));
    ExpandAdded(dir, o, from.depth + 1, adj(from.node), i);
    var v := Expand(dir, o, from.depth + 1, adj(from.node))[i];
    var p :| Walk(dir, adj, p, root, from.node) && |p| == from.depth + 1;
    var e :| e in adj(from.node) && Far(dir, e) == v.node;
    assert Step(dir, adj, from.node, v.node);
    WalkExtends(dir, adj, p, root, from.node, v.node);
    assert |p + [v.node]| == v.depth + 1;
  }

  lemma OrderDistinct(dir: Direction, adj: Adjacency, root: Handle, k: nat)
    ensures Distinct(Order(dir, adj, root, k))
  {
    hide Distinct, Order, Layered;
    OrderShape(dir, adj, root, k);
  }

  lemma RootReached(dir: Direction, adj: Adjacency, root: Handle)
    ensures Reached(dir, adj, root, Visit(root, 0))
  {
    assert Walk(dir, adj, [root], root, root);
  }

  /** Each discovered node is reached by a walk exactly as long as its depth. */
  lemma {:induction false} OrderSound(dir: Direction, adj: Adjacency, root: Handle, k: nat, i: nat)
    requires i < |Order(dir, adj, root, k)|
    ensures Reached(dir, adj, root, Order(dir, adj, root, k)[i])
    decreases k
  {
    hide Expand, Reached;
    if k == 0 {
      RootReached(dir, adj, root);
    } else {
      var o := Order(dir, adj, root, k - 1);
      if i < |o| {
        OrderGrows(dir, adj, root, k - 1, k);
        OrderSound(dir, adj, root, k - 1, i);
      } else {
        OrderSound(dir, adj, root, k - 1, k - 1);
        OrderDistinct(dir, adj, root, k - 1);
        ExpandReached(dir, adj, root, o, o[k - 1], i);
      }
    }
  }

  lemma ExpandFinds(dir: Direction, adj: Adjacency, o: seq<Visit>, i: nat, next: Handle) returns (j: nat)
    requires i < |o| && Distinct(o) && Layered(o, Top(o, i))
    requires Step(dir, adj, o[i].node, next)
    ensures var after := Expand(dir, o, o[i].depth + 1, adj(o[i].node));
            j < |after| && after[j].node == next && after[j].depth <= o[i].depth + 1
  {
    hide Expand, Distinct;
    var es := adj(o[i].node);
    var e :| e in es && Far(dir, e) == next;
    ExpandFound(dir, o, o[i].depth + 1, es, next);
    ExpandShape(dir, o, o[i].depth + 1, es);
    var after := Expand(dir, o, o[i].depth + 1, es);
    assert Found(after, next);
    j :| 0 <= j < |after| && after[j].node == next;
  }

  /** Expanding node `i` puts all its neighbours in the list, at most one layer below it. */
  lemma NeighbourFound(dir: Direction, adj: Adjacency, root: Handle, k: nat, i: nat, next: Handle) returns (j: nat)
    requires i < k && i < |Order(dir, adj, root, k)|
    requires Step(dir, adj, Order(dir, adj, root, k)[i].node, next)
    ensures j < |Order(dir, adj, root, k)|
    ensures Order(dir, adj, root, k)[j].node == next
    ensures Order(dir, adj, root, k)[j].depth <= Order(dir, adj, root, k)[i].depth + 1
  {
    hide Expand, Distinct, Layered, Step;
    var o := Order(dir, adj, root, i);
    OrderShape(dir, adj, root, i);
    if |o| <= i {
      OrderSettles(dir, adj, root, i, k);
      assert false;
    }
    OrderGrows(dir, adj, root, i, k);
    OrderGrows(dir, adj, root, i + 1, k);
    j := ExpandFinds(dir, adj, o, i, next);
  }

  /** A complete list holds every node a walk reaches, no deeper than the walk is long. */
  lemma {:induction false} OrderReaches(dir: Direction, adj: Adjacency, root: Handle, k: nat, p: seq<Handle>, b: Handle)
    returns (j: nat)
    requires |Order(dir, adj, root, k)| <= k
    requires Walk(dir, adj, p, root, b)
    ensures j < |Order(dir, adj, root, k)|
    ensures Order(dir, adj, root, k)[j].node == b && Order(dir, adj, root, k)[j].depth <= |p| - 1
    decreases |p|
  {
    OrderShape(dir, adj, root, k);
    if |p| == 1 {
      j := 0;
    } else {
      var init := p[..|p| - 1];
      var i := OrderReaches(dir, adj, root, k, init, init[|init| - 1]);
      assert Step(dir, adj, p[|p| - 2], p[|p| - 2 + 1]);
      j := NeighbourFound(dir, adj, root, k, i, b);
    }
  }
}
