/** What a caller may conclude from a bounded slice, for every table, target, direction and pair of budgets. */
module SliceProperties {
  import opened Wrappers
  import opened Relations
  import opened Discovery
  import opened Slice

  // ---- The order and its distances ---------------------------------------------------------------------------

  lemma FullOrderFacts(rows: seq<Relation>, q: Query, root: Handle)
    ensures var order := FullOrder(rows, q, root);
            |order| > 0 && order[0] == Visit(root, 0) && Distinct(order) && |order| <= |Universe(rows, q.dir, root)| &&
            forall i, j :: 0 <= i < j < |order| ==> order[i].depth <= order[j].depth
  {
    var k := |Universe(rows, q.dir, root)|;
    NeighboursWithin(rows, q, root);
    OrderShape(q.dir, Neighbours(rows, q), root, k);
    OrderCompletes(q.dir, Neighbours(rows, q), root, Universe(rows, q.dir, root), k);
  }

  /** `depth` is the length of a shortest walk from `a` to `b`. */
  ghost predicate Distance(dir: Direction, adj: Adjacency, a: Handle, b: Handle, depth: nat) {
    && ReachableWithin(dir, adj, a, b, depth)
    && forall p :: Walk(dir, adj, p, a, b) ==> depth <= |p| - 1
  }

  /** The unbounded order holds exactly the reachable nodes, each once, at its shortest distance from the target. */
  lemma FullOrderExact(rows: seq<Relation>, q: Query, root: Handle)
    ensures var order, adj := FullOrder(rows, q, root), Neighbours(rows, q);
            && (forall i :: 0 <= i < |order| ==> Distance(q.dir, adj, root, order[i].node, order[i].depth))
            && (forall h :: Reachable(q.dir, adj, root, h) <==> h in Nodes(order))
  {
    var order, adj, k := FullOrder(rows, q, root), Neighbours(rows, q), |Universe(rows, q.dir, root)|;
    FullOrderFacts(rows, q, root);
    forall i | 0 <= i < |order| ensures Distance(q.dir, adj, root, order[i].node, order[i].depth) {
      OrderSound(q.dir, adj, root, k, i);
      forall p | Walk(q.dir, adj, p, root, order[i].node) ensures order[i].depth <= |p| - 1 {
        var j := OrderReaches(q.dir, adj, root, k, p, order[i].node);
        assert j == i;
      }
    }
    forall h ensures Reachable(q.dir, adj, root, h) <==> h in Nodes(order) {
      if Reachable(q.dir, adj, root, h) {
        var p :| Walk(q.dir, adj, p, root, h);
        var j := OrderReaches(q.dir, adj, root, k, p, h);
        assert order[j] in order;
      }
      if h in Nodes(order) {
        var v :| v in order && v.node == h;
        var i :| 0 <= i < |order| && order[i] == v;
        assert Distance(q.dir, adj, root, order[i].node, order[i].depth);
      }
    }
  }

  /** A node within distance `d` of the target stands in the order at depth at most `d`, and conversely. */
  lemma BallInOrder(rows: seq<Relation>, q: Query, root: Handle, d: nat, h: Handle)
    ensures ReachableWithin(q.dir, Neighbours(rows, q), root, h, d) <==>
            exists i :: 0 <= i < |FullOrder(rows, q, root)| && FullOrder(rows, q, root)[i].node == h &&
                        FullOrder(rows, q, root)[i].depth <= d
  {
    var order, adj, k := FullOrder(rows, q, root), Neighbours(rows, q), |Universe(rows, q.dir, root)|;
    FullOrderFacts(rows, q, root);
    if ReachableWithin(q.dir, adj, root, h, d) {
      var p :| Walk(q.dir, adj, p, root, h) && |p| - 1 <= d;
      var j := OrderReaches(q.dir, adj, root, k, p, h);
      assert order[j].node == h && order[j].depth <= d;
    }
    if i :| 0 <= i < |order| && order[i].node == h && order[i].depth <= d {
      OrderSound(q.dir, adj, root, k, i);
    }
  }

  // ---- Budgets ------------------------------------------------------------------------------------------------

  lemma {:induction false} CutMonotone(order: seq<Visit>, n: int, d: int, wider: int, deeper: int, i: nat)
    requires n <= wider && d <= deeper && i <= |order|
    ensures CutFrom(order, n, d, i) <= CutFrom(order, wider, deeper, i)
    decreases |order| - i
  {
    if Admits(order, n, d, i) {
      assert Admits(order, wider, deeper, i);
      CutMonotone(order, n, d, wider, deeper, i + 1);
    }
  }

  /** Raising either budget only extends the visit order, which is always a prefix of the unbounded order. */
  lemma BudgetMonotone(rows: seq<Relation>, q: Query, root: Handle, n: int, d: int, wider: int, deeper: int)
    requires n <= wider && d <= deeper
    ensures SliceOf(rows, q, root, n, d).seen <= SliceOf(rows, q, root, wider, deeper).seen
    ensures SliceOf(rows, q, root, wider, deeper).seen <= Names(FullOrder(rows, q, root))
  {
    var order := FullOrder(rows, q, root);
    CutMonotone(order, n, d, wider, deeper, 0);
    assert order[..Cut(order, n, d)] <= order[..Cut(order, wider, deeper)] <= order;
  }

  lemma SeenIsPrefix(rows: seq<Relation>, q: Query, root: Handle, n: int, d: int) returns (c: nat)
    ensures var order := FullOrder(rows, q, root);
            && c == Cut(order, n, d) && 0 < c <= |order| && c <= Max(1, n)
            && SliceOf(rows, q, root, n, d).seen == Names(order[..c])
            && SliceOf(rows, q, root, n, d).reason == ReasonAt(order, c, d)
            && (forall h :: h in SliceOf(rows, q, root, n, d).seen <==> h in Nodes(order[..c]))
            && (forall i :: 0 <= i < c ==> order[i].depth <= Max(0, d))
  {
    var order := FullOrder(rows, q, root);
    c := Cut(order, n, d);
    FullOrderFacts(rows, q, root);
    assert Admits(order, n, d, 0);
    forall i | 0 <= i < c ensures order[i].depth <= Max(0, d) && i < Max(1, n) {
      assert Admits(order, n, d, i);
    }
    assert c > 0 ==> Admits(order, n, d, c - 1);
    NamesAreNodes(order[..c]);
  }

  lemma NamesAreNodes(order: seq<Visit>)
    ensures forall h :: h in Names(order) <==> h in Nodes(order)
  {
    forall h ensures h in Names(order) <==> h in Nodes(order) {
      if h in Names(order) {
        var i :| 0 <= i < |order| && Names(order)[i] == h;
        assert order[i] in order;
      }
      if h in Nodes(order) {
        var v :| v in order && v.node == h;
        var i :| 0 <= i < |order| && order[i] == v;
        assert Names(order)[i] == h;
      }
    }
  }

  /** A slice visits the target first, no node twice and never more than max(1, n) nodes. */
  lemma SeenBounded(rows: seq<Relation>, q: Query, root: Handle, n: int, d: int)
    ensures var seen := SliceOf(rows, q, root, n, d).seen;
            && 0 < |seen| <= Max(1, n) && seen[0] == root
            && forall i, j :: 0 <= i < j < |seen| ==> seen[i] != seen[j]
  {
    FullOrderFacts(rows, q, root);
    var c := SeenIsPrefix(rows, q, root, n, d);
  }

  /** Every visited node lies within the depth budget. */
  lemma SeenInBall(rows: seq<Relation>, q: Query, root: Handle, n: int, d: int, h: Handle)
    requires h in SliceOf(rows, q, root, n, d).seen
    ensures ReachableWithin(q.dir, Neighbours(rows, q), root, h, Max(0, d))
  {
    hide SliceOf, FullOrder, ReachableWithin, Neighbours;
    var order := FullOrder(rows, q, root);
    var c := SeenIsPrefix(rows, q, root, n, d);
    var i :| 0 <= i < c && Names(order[..c])[i] == h;
    assert order[i].node == h;
    BallInOrder(rows, q, root, Max(0, d), h);
  }

  /**
   * The reason is exact. It is the node budget just when some node within the depth budget was left out, and then
   * exactly max(1, n) nodes were visited. Otherwise the visited set is the whole ball of radius d.
   */
  lemma ReasonExact(rows: seq<Relation>, q: Query, root: Handle, n: int, d: int)
    ensures var o, adj := SliceOf(rows, q, root, n, d), Neighbours(rows, q);
            && (o.reason == Some(NodeBudget) <==>
                exists h :: ReachableWithin(q.dir, adj, root, h, Max(0, d)) && h !in o.seen)
            && (o.reason == Some(NodeBudget) ==> |o.seen| == Max(1, n))
            && (o.reason != Some(NodeBudget) ==>
                forall h :: h in o.seen <==> ReachableWithin(q.dir, adj, root, h, Max(0, d)))
            && (o.reason == None <==> forall h :: Reachable(q.dir, adj, root, h) ==> h in o.seen)
  {
    var o, adj, order := SliceOf(rows, q, root, n, d), Neighbours(rows, q), FullOrder(rows, q, root);
    var ball := Max(0, d);
    var c := SeenIsPrefix(rows, q, root, n, d);
    FullOrderFacts(rows, q, root);
    FullOrderExact(rows, q, root);
    if c < |order| {
      var next := order[c];
      assert !Admits(order, n, d, c);
      assert forall i :: 0 <= i < c ==> order[..c][i].node != next.node;
      assert next.node !in o.seen;
      assert next in order;
      assert Reachable(q.dir, adj, root, next.node);
      if next.depth <= ball {
        BallInOrder(rows, q, root, ball, next.node);
        assert ReachableWithin(q.dir, adj, root, next.node, ball);
      } else {
        BallVisited(rows, q, root, n, d);
      }
    } else {
      assert order[..c] == order;
      BallVisited(rows, q, root, n, d);
    }
    forall h | h in o.seen ensures ReachableWithin(q.dir, adj, root, h, ball) {
      SeenInBall(rows, q, root, n, d, h);
    }
  }

  lemma BallVisited(rows: seq<Relation>, q: Query, root: Handle, n: int, d: int)
    requires SliceOf(rows, q, root, n, d).reason != Some(NodeBudget)
    ensures forall h :: ReachableWithin(q.dir, Neighbours(rows, q), root, h, Max(0, d)) ==>
                        h in SliceOf(rows, q, root, n, d).seen
  {
    hide SliceOf, FullOrder, ReachableWithin, Cut;
    var order := FullOrder(rows, q, root);
    var c := SeenIsPrefix(rows, q, root, n, d);
    FullOrderFacts(rows, q, root);
    forall h | ReachableWithin(q.dir, Neighbours(rows, q), root, h, Max(0, d))
      ensures h in SliceOf(rows, q, root, n, d).seen
    {
      BallInOrder(rows, q, root, Max(0, d), h);
      var i :| 0 <= i < |order| && order[i].node == h && order[i].depth <= Max(0, d);
      assert forall j :: c <= j < |order| ==> order[c].depth <= order[j].depth;
      assert i < c;
      assert order[..c][i] == order[i];
      assert order[i] in order[..c];
    }
  }

  // ---- Selected rows and boundaries --------------------------------------------------------------------------

  lemma OutgoingRows(rows: seq<Relation>, q: Query, nodes: seq<Handle>)
    ensures forall e :: e in Outgoing(Neighbours(rows, q), nodes) <==>
                        e in rows && Eligible(q, e) && Near(q.dir, e) in nodes
  {
  }

  /**
   * The selected rows are exactly the eligible rows with both ends visited, and the boundaries exactly the
   * unvisited far ends of eligible rows leaving visited nodes. In particular no boundary was ever visited.
   */
  lemma InducedAndFrontier(rows: seq<Relation>, q: Query, root: Handle, n: int, d: int)
    ensures var o := SliceOf(rows, q, root, n, d);
            && (forall e :: e in o.edges <==>
                            e in rows && Eligible(q, e) && Near(q.dir, e) in o.seen && Far(q.dir, e) in o.seen)
            && (forall h :: h in o.boundaries <==>
                            h !in o.seen &&
                            exists e :: e in rows && Eligible(q, e) && Near(q.dir, e) in o.seen && Far(q.dir, e) == h)
  {
    var c := SeenIsPrefix(rows, q, root, n, d);
    OutgoingRows(rows, q, SliceOf(rows, q, root, n, d).seen);
  }

  /** How often a row occurs in a table. */
  function Count(es: seq<Relation>, e: Relation): nat {
    multiset(es)[e]
  }

  lemma {:induction false} WhereCount(q: Query, node: Handle, es: seq<Relation>, e: Relation)
    ensures Count(Where(q, node, es), e) == if Matches(q, node, e) then Count(es, e) else 0
  {
    if es != [] {
      WhereCount(q, node, es[1..], e);
      assert es == [es[0]] + es[1..];
    }
  }

  lemma AdjacentCount(rows: seq<Relation>, q: Query, node: Handle, e: Relation)
    ensures Count(Adjacent(rows, q, node), e) == if Matches(q, node, e) then Count(rows, e) else 0
  {
    WhereCount(q, node, rows, e);
  }

  lemma {:induction false} OutgoingCount(rows: seq<Relation>, q: Query, nodes: seq<Handle>, e: Relation)
    requires forall i, j :: 0 <= i < j < |nodes| ==> nodes[i] != nodes[j]
    ensures Count(Outgoing(Neighbours(rows, q), nodes), e) ==
            if Eligible(q, e) && Near(q.dir, e) in nodes then Count(rows, e) else 0
  {
    if nodes != [] {
      var init, last := nodes[..|nodes| - 1], nodes[|nodes| - 1];
      OutgoingCount(rows, q, init, e);
      AdjacentCount(rows, q, last, e);
      assert Near(q.dir, e) in nodes <==> Near(q.dir, e) in init || Near(q.dir, e) == last by {
        assert nodes == init + [last];
      }
      assert last !in init;
    }
  }

  lemma {:induction false} ChosenCount(dir: Direction, es: seq<Relation>, visited: set<Handle>, e: Relation)
    ensures Count(Chosen(dir, es, visited), e) == if Far(dir, e) in visited then Count(es, e) else 0
  {
    if es != [] {
      ChosenCount(dir, es[..|es| - 1], visited, e);
      assert es == es[..|es| - 1] + [es[|es| - 1]];
    }
  }

  /** Each row of the induced subgraph is selected as often as it occurs in the table: none is lost or repeated. */
  lemma SelectedOnce(rows: seq<Relation>, q: Query, root: Handle, n: int, d: int, e: Relation)
    ensures var o := SliceOf(rows, q, root, n, d);
            Count(o.edges, e) ==
            if Eligible(q, e) && Near(q.dir, e) in o.seen && Far(q.dir, e) in o.seen then Count(rows, e) else 0
  {
    var c := SeenIsPrefix(rows, q, root, n, d);
    var o, order := SliceOf(rows, q, root, n, d), FullOrder(rows, q, root);
    SeenBounded(rows, q, root, n, d);
    OutgoingCount(rows, q, o.seen, e);
    ChosenCount(q.dir, Outgoing(Neighbours(rows, q), o.seen), Nodes(order[..c]), e);
  }

  // ---- Untruncated slices ------------------------------------------------------------------------------------

  /** A slice is reported as truncated when it has boundaries. */
  predicate Truncated(o: Outcome) {
    o.boundaries != []
  }

  /** Without boundaries the visited set is closed under rows, so a walk from inside stays inside. */
  lemma {:induction false} ClosedContains(rows: seq<Relation>, q: Query, o: Outcome, p: seq<Handle>, a: Handle, b: Handle)
    requires a in o.seen && o.boundaries == []
    requires forall h :: h in o.boundaries <==>
               h !in o.seen &&
               exists e :: e in rows && Eligible(q, e) && Near(q.dir, e) in o.seen && Far(q.dir, e) == h
    requires Walk(q.dir, Neighbours(rows, q), p, a, b)
    ensures b in o.seen
    decreases |p|
  {
    if |p| > 1 {
      assert Step(q.dir, Neighbours(rows, q), p[0], p[0 + 1]);
      var e :| e in Neighbours(rows, q)(p[0]) && Far(q.dir, e) == p[1];
      assert p[1] in o.seen by {
        assert p[1] !in o.boundaries;
      }
      forall i | 0 <= i < |p[1..]| - 1 ensures Step(q.dir, Neighbours(rows, q), p[1..][i], p[1..][i + 1]) {
        assert Step(q.dir, Neighbours(rows, q), p[i + 1], p[i + 1 + 1]);
      }
      ClosedContains(rows, q, o, p[1..], p[1], b);
    }
  }

  lemma NoBoundaryComplete(rows: seq<Relation>, q: Query, root: Handle, n: int, d: int)
    requires !Truncated(SliceOf(rows, q, root, n, d))
    ensures forall h :: Reachable(q.dir, Neighbours(rows, q), root, h) ==> h in SliceOf(rows, q, root, n, d).seen
  {
    var o := SliceOf(rows, q, root, n, d);
    InducedAndFrontier(rows, q, root, n, d);
    SeenBounded(rows, q, root, n, d);
    forall h | Reachable(q.dir, Neighbours(rows, q), root, h) ensures h in o.seen {
      var p :| Walk(q.dir, Neighbours(rows, q), p, root, h);
      ClosedContains(rows, q, o, p, root, h);
    }
  }

  lemma RowIsStep(rows: seq<Relation>, q: Query, e: Relation)
    requires e in rows && Eligible(q, e)
    ensures Step(q.dir, Neighbours(rows, q), Near(q.dir, e), Far(q.dir, e))
  {
    assert e in Neighbours(rows, q)(Near(q.dir, e));
  }

  lemma BoundaryReachable(rows: seq<Relation>, q: Query, root: Handle, n: int, d: int, h: Handle)
    requires h in SliceOf(rows, q, root, n, d).boundaries
    ensures Reachable(q.dir, Neighbours(rows, q), root, h) && h !in SliceOf(rows, q, root, n, d).seen
  {
    var o, adj := SliceOf(rows, q, root, n, d), Neighbours(rows, q);
    InducedAndFrontier(rows, q, root, n, d);
    hide SliceOf, Walk, Step, Adjacent;
    var e :| e in rows && Eligible(q, e) && Near(q.dir, e) in o.seen && Far(q.dir, e) == h;
    SeenInBall(rows, q, root, n, d, Near(q.dir, e));
    var p :| Walk(q.dir, adj, p, root, Near(q.dir, e)) && |p| - 1 <= Max(0, d);
    RowIsStep(rows, q, e);
    WalkExtends(q.dir, adj, p, root, Near(q.dir, e), h);
  }

  /** A reason is given exactly when the slice is truncated. */
  lemma TruncatedHasReason(rows: seq<Relation>, q: Query, root: Handle, n: int, d: int)
    ensures Truncated(SliceOf(rows, q, root, n, d)) <==> SliceOf(rows, q, root, n, d).reason.Some?
  {
    ReasonExact(rows, q, root, n, d);
    if Truncated(SliceOf(rows, q, root, n, d)) {
      BoundaryReachable(rows, q, root, n, d, SliceOf(rows, q, root, n, d).boundaries[0]);
    } else {
      NoBoundaryComplete(rows, q, root, n, d);
    }
  }

  /** An untruncated slice is complete: the whole reachable set, with every eligible row that leaves it. */
  lemma UntruncatedComplete(rows: seq<Relation>, q: Query, root: Handle, n: int, d: int)
    requires !Truncated(SliceOf(rows, q, root, n, d))
    ensures var o := SliceOf(rows, q, root, n, d);
            && (forall h :: h in o.seen <==> Reachable(q.dir, Neighbours(rows, q), root, h))
            && (forall e :: e in o.edges <==> e in rows && Eligible(q, e) && Near(q.dir, e) in o.seen)
  {
    var o := SliceOf(rows, q, root, n, d);
    TruncatedHasReason(rows, q, root, n, d);
    ReasonExact(rows, q, root, n, d);
    InducedAndFrontier(rows, q, root, n, d);
    forall e | e in rows && Eligible(q, e) && Near(q.dir, e) in o.seen ensures Far(q.dir, e) in o.seen {
      assert Far(q.dir, e) !in o.boundaries;
    }
  }

  function Opposite(q: Query): Query {
    q.(dir := Reverse(q.dir))
  }

  function Reversed(p: seq<Handle>): (r: seq<Handle>)
    ensures |r| == |p| && forall i :: 0 <= i < |p| ==> r[i] == p[|p| - 1 - i]
  {
    seq(|p|, i requires 0 <= i < |p| => p[|p| - 1 - i])
  }

  lemma StepReversed(rows: seq<Relation>, q: Query, a: Handle, b: Handle)
    requires Step(q.dir, Neighbours(rows, q), a, b)
    ensures Step(Reverse(q.dir), Neighbours(rows, Opposite(q)), b, a)
  {
    hide Sorted, Where;
    var e :| e in Adjacent(rows, q, a) && Far(q.dir, e) == b;
    assert e in Adjacent(rows, Opposite(q), b) && Far(Reverse(q.dir), e) == a;
    assert e in Neighbours(rows, Opposite(q))(b);
  }

  lemma WalkReversed(rows: seq<Relation>, q: Query, p: seq<Handle>, a: Handle, b: Handle)
    requires Walk(q.dir, Neighbours(rows, q), p, a, b)
    ensures Walk(Reverse(q.dir), Neighbours(rows, Opposite(q)), Reversed(p), b, a)
  {
    var r := Reversed(p);
    forall i | 0 <= i < |r| - 1 ensures Step(Reverse(q.dir), Neighbours(rows, Opposite(q)), r[i], r[i + 1]) {
      var j := |p| - 2 - i;
      assert Step(q.dir, Neighbours(rows, q), p[j], p[j + 1]);
      StepReversed(rows, q, p[j], p[j + 1]);
    }
  }

  /** An untruncated backward slice of `a` holds `b` just when an untruncated forward slice of `b` holds `a`. */
  lemma Duality(rows: seq<Relation>, q: Query, a: Handle, b: Handle, n: int, d: int, n': int, d': int)
    requires !Truncated(SliceOf(rows, q, a, n, d))
    requires !Truncated(SliceOf(rows, Opposite(q), b, n', d'))
    ensures b in SliceOf(rows, q, a, n, d).seen <==> a in SliceOf(rows, Opposite(q), b, n', d').seen
  {
    hide SliceOf, Walk, Adjacent, Truncated;
    UntruncatedComplete(rows, q, a, n, d);
    UntruncatedComplete(rows, Opposite(q), b, n', d');
    if Reachable(q.dir, Neighbours(rows, q), a, b) {
      var p :| Walk(q.dir, Neighbours(rows, q), p, a, b);
      WalkReversed(rows, q, p, a, b);
    }
    if Reachable(Reverse(q.dir), Neighbours(rows, Opposite(q)), b, a) {
      var p :| Walk(Reverse(q.dir), Neighbours(rows, Opposite(q)), p, b, a);
      WalkReversed(rows, Opposite(q), p, b, a);
      assert Opposite(Opposite(q)) == q;
    }
  }

  // ---- The preloading form -----------------------------------------------------------------------------------

  /** Adjacency read from rows that were all loaded and sorted before the traversal. */
  function PreloadedNeighbours(rows: seq<Relation>, q: Query): Adjacency {
    node => Where(q, node, Preloaded(rows, q))
  }

  lemma {:induction false} OrderCongruent(dir: Direction, a: Adjacency, b: Adjacency, root: Handle, k: nat)
    requires forall n :: a(n) == b(n)
    ensures Order(dir, a, root, k) == Order(dir, b, root, k)
  {
    if k > 0 {
      OrderCongruent(dir, a, b, root, k - 1);
    }
  }

  lemma {:induction false} OutgoingCongruent(a: Adjacency, b: Adjacency, nodes: seq<Handle>)
    requires forall n :: a(n) == b(n)
    ensures Outgoing(a, nodes) == Outgoing(b, nodes)
  {
    if nodes != [] {
      OutgoingCongruent(a, b, nodes[..|nodes| - 1]);
    }
  }

  /** Loading and sorting every relation of the function first gives the same slice as per-node queries. */
  lemma PreloadEquivalent(rows: seq<Relation>, q: Query, root: Handle, n: int, d: int)
    ensures var adj := PreloadedNeighbours(rows, q);
            CutOutcome(q.dir, adj, Order(q.dir, adj, root, |Universe(rows, q.dir, root)|), n, d) ==
            SliceOf(rows, q, root, n, d)
  {
    var a, b := PreloadedNeighbours(rows, q), Neighbours(rows, q);
    forall node ensures a(node) == b(node) {
      AdjacentIsPreloadedWhere(rows, q, node);
    }
    OrderCongruent(q.dir, a, b, root, |Universe(rows, q.dir, root)|);
    OutgoingCongruent(a, b, SliceOf(rows, q, root, n, d).seen);
  }
}
