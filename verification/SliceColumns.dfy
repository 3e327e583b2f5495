/** What a slice answers, told in the columns of the table alone: which rows, which nodes, and in which order. */
module SliceColumns {
  import opened Wrappers
  import opened Ordering
  import opened Relations
  import opened Discovery
  import opened Slice
  import opened SliceProperties

  // ---- Rows --------------------------------------------------------------------------------------------------

  /** A row of the table that belongs to the function and has one of the kinds. */
  predicate Asked(rows: seq<Relation>, q: Query, e: Relation) {
    e in rows && q.functionId.Some? && e.functionId == q.functionId && e.kind in q.kinds
  }

  /** Backward, a row leads from its src to its dst; forward, from its dst to its src. */
  predicate Leads(dir: Direction, e: Relation, a: Handle, b: Handle) {
    match dir
    case Backward => e.src == a && e.dst == b
    case Forward => e.dst == a && e.src == b
  }

  /** Before in the ORDER BY clause, or not told apart: kind, ordinal with missing ones first, src, dst. */
  predicate NotAfter(a: Relation, b: Relation) {
    || (a.kind != b.kind && TextLeq(a.kind, b.kind))
    || (a.kind == b.kind && a.ordinal.None? && b.ordinal.Some?)
    || (a.kind == b.kind && a.ordinal.Some? && b.ordinal.Some? && a.ordinal.value < b.ordinal.value)
    || (a.kind == b.kind && a.ordinal == b.ordinal && a.src != b.src && TextLeq(a.src, b.src))
    || (a.kind == b.kind && a.ordinal == b.ordinal && a.src == b.src && TextLeq(a.dst, b.dst))
  }

  /** The query of a node finds the rows that lead away from it, each as often as the table has it, in order. */
  lemma AdjacentColumns(rows: seq<Relation>, q: Query, node: Handle)
    ensures var r := Adjacent(rows, q, node);
            && (forall e :: multiset(r)[e] ==
                            if Asked(rows, q, e) && Leads(q.dir, e, node, Far(q.dir, e)) then multiset(rows)[e] else 0)
            && (forall e :: e in r <==> Asked(rows, q, e) && exists b :: Leads(q.dir, e, node, b))
            && (forall i, j :: 0 <= i < j < |r| ==> NotAfter(r[i], r[j]))
  {
    var r := Adjacent(rows, q, node);
    forall e ensures multiset(r)[e] ==
                     if Asked(rows, q, e) && Leads(q.dir, e, node, Far(q.dir, e)) then multiset(rows)[e] else 0
    {
      AdjacentCount(rows, q, node, e);
    }
    forall e | e in r ensures exists b :: Leads(q.dir, e, node, b) {
      assert Leads(q.dir, e, node, Far(q.dir, e));
    }
    forall i, j | 0 <= i < j < |r| ensures NotAfter(r[i], r[j]) {
      LeqColumns(r[i], r[j]);
    }
  }

  lemma LeqColumns(a: Relation, b: Relation)
    requires Leq(ByKind, a, b)
    ensures NotAfter(a, b)
  {
  }

  // ---- Nodes -------------------------------------------------------------------------------------------------

  ghost predicate Link(rows: seq<Relation>, q: Query, a: Handle, b: Handle) {
    exists e :: Asked(rows, q, e) && Leads(q.dir, e, a, b)
  }

  /** A chain of such rows from `a` to `b`. */
  ghost predicate Chain(rows: seq<Relation>, q: Query, p: seq<Handle>, a: Handle, b: Handle) {
    && |p| > 0 && p[0] == a && p[|p| - 1] == b
    && forall i :: 0 <= i < |p| - 1 ==> Link(rows, q, p[i], p[i + 1])
  }

  lemma StepIsLink(rows: seq<Relation>, q: Query, a: Handle, b: Handle)
    ensures Step(q.dir, Neighbours(rows, q), a, b) <==> Link(rows, q, a, b)
  {
    hide Sorted, Where;
    if Step(q.dir, Neighbours(rows, q), a, b) {
      var e :| e in Adjacent(rows, q, a) && Far(q.dir, e) == b;
      assert Asked(rows, q, e) && Leads(q.dir, e, a, b);
    }
    if Link(rows, q, a, b) {
      var e :| Asked(rows, q, e) && Leads(q.dir, e, a, b);
      assert e in Adjacent(rows, q, a);
      assert e in Neighbours(rows, q)(a);
    }
  }

  lemma WalkIsChain(rows: seq<Relation>, q: Query, p: seq<Handle>, a: Handle, b: Handle)
    ensures Walk(q.dir, Neighbours(rows, q), p, a, b) <==> Chain(rows, q, p, a, b)
  {
    hide Step, Link, Neighbours;
    forall i | 0 <= i < |p| - 1
      ensures Step(q.dir, Neighbours(rows, q), p[i], p[i + 1]) <==> Link(rows, q, p[i], p[i + 1])
    {
      StepIsLink(rows, q, p[i], p[i + 1]);
    }
  }

  /** A chain of at most `d` rows leads from the target to `h`. */
  ghost predicate ChainWithin(rows: seq<Relation>, q: Query, root: Handle, h: Handle, d: int) {
    exists p :: Chain(rows, q, p, root, h) && |p| - 1 <= d
  }

  ghost predicate Chained(rows: seq<Relation>, q: Query, root: Handle, h: Handle) {
    exists p :: Chain(rows, q, p, root, h)
  }

  lemma ReachIsChain(rows: seq<Relation>, q: Query, root: Handle, h: Handle, d: nat)
    ensures ReachableWithin(q.dir, Neighbours(rows, q), root, h, d) <==> ChainWithin(rows, q, root, h, d)
    ensures Reachable(q.dir, Neighbours(rows, q), root, h) <==> Chained(rows, q, root, h)
  {
    hide Walk, Chain, Neighbours;
    forall p ensures Walk(q.dir, Neighbours(rows, q), p, root, h) <==> Chain(rows, q, p, root, h) {
      WalkIsChain(rows, q, p, root, h);
    }
  }

  /**
   * The visited nodes are those that chains reach: all of them when there is no reason, those within the depth budget
   * when the reason is the depth, and as many of these as the node budget allows otherwise.
   */
  lemma VisitedColumns(rows: seq<Relation>, q: Query, root: Handle, n: int, d: int)
    ensures var o := SliceOf(rows, q, root, n, d);
            && (forall h :: h in o.seen ==> ChainWithin(rows, q, root, h, Max(0, d)))
            && (o.reason != Some(NodeBudget) ==> forall h :: ChainWithin(rows, q, root, h, Max(0, d)) ==> h in o.seen)
            && (o.reason == None <==> forall h :: Chained(rows, q, root, h) ==> h in o.seen)
            && (o.reason == Some(NodeBudget) ==> |o.seen| == Max(1, n))
  {
    hide SliceOf, ReachableWithin, Reachable, ChainWithin, Chained, Neighbours;
    var o := SliceOf(rows, q, root, n, d);
    ReasonExact(rows, q, root, n, d);
    forall h
      ensures ReachableWithin(q.dir, Neighbours(rows, q), root, h, Max(0, d)) <==> ChainWithin(rows, q, root, h, Max(0, d))
      ensures Reachable(q.dir, Neighbours(rows, q), root, h) <==> Chained(rows, q, root, h)
    {
      ReachIsChain(rows, q, root, h, Max(0, d));
    }
    forall h | h in o.seen ensures ChainWithin(rows, q, root, h, Max(0, d)) {
      SeenInBall(rows, q, root, n, d, h);
    }
  }

  /** The selected rows are those with both ends visited; the boundaries are where other rows lead that start inside. */
  lemma SelectedColumns(rows: seq<Relation>, q: Query, root: Handle, n: int, d: int)
    ensures var o := SliceOf(rows, q, root, n, d);
            && (forall e :: e in o.edges <==> Asked(rows, q, e) && e.src in o.seen && e.dst in o.seen)
            && (forall h :: h in o.boundaries <==>
                            h !in o.seen && exists e, a :: Asked(rows, q, e) && Leads(q.dir, e, a, h) && a in o.seen)
  {
    hide SliceOf;
    var o := SliceOf(rows, q, root, n, d);
    InducedAndFrontier(rows, q, root, n, d);
    forall h ensures h in o.boundaries <==>
                     h !in o.seen && exists e, a :: Asked(rows, q, e) && Leads(q.dir, e, a, h) && a in o.seen
    {
      if h in o.boundaries {
        var e :| e in rows && Eligible(q, e) && Near(q.dir, e) in o.seen && Far(q.dir, e) == h;
        assert Asked(rows, q, e) && Leads(q.dir, e, Near(q.dir, e), h);
      }
    }
  }

  /** The row leaves node number `x` of the list. */
  predicate LeavesAt(dir: Direction, nodes: seq<Handle>, e: Relation, x: int) {
    0 <= x < |nodes| && Leads(dir, e, nodes[x], Far(dir, e))
  }

  /** The one row leaves an earlier node than the other, or the same node and comes first in its query. */
  ghost predicate RowBefore(dir: Direction, nodes: seq<Handle>, a: Relation, b: Relation) {
    exists x, y :: LeavesAt(dir, nodes, a, x) && LeavesAt(dir, nodes, b, y) && x <= y && (x == y ==> NotAfter(a, b))
  }

  /** Rows node by node, and those of one node in order. */
  ghost predicate NodeByNode(dir: Direction, nodes: seq<Handle>, es: seq<Relation>) {
    forall i, j :: 0 <= i < j < |es| ==> RowBefore(dir, nodes, es[i], es[j])
  }

  lemma BeforeStays(dir: Direction, nodes: seq<Handle>, a: Relation, b: Relation)
    requires nodes != [] && RowBefore(dir, nodes[..|nodes| - 1], a, b)
    ensures RowBefore(dir, nodes, a, b)
  {
    hide Leads, NotAfter;
    var init := nodes[..|nodes| - 1];
    var x, y :| LeavesAt(dir, init, a, x) && LeavesAt(dir, init, b, y) && x <= y && (x == y ==> NotAfter(a, b));
    assert LeavesAt(dir, nodes, a, x) && LeavesAt(dir, nodes, b, y);
  }

  lemma EarlierNode(rows: seq<Relation>, q: Query, nodes: seq<Handle>, a: Relation, b: Relation)
    requires nodes != [] && a in Outgoing(Neighbours(rows, q), nodes[..|nodes| - 1])
    requires b in Adjacent(rows, q, nodes[|nodes| - 1])
    ensures RowBefore(q.dir, nodes, a, b)
  {
    hide Leads, NotAfter, Outgoing, Adjacent;
    var x := LeavesBefore(rows, q, nodes[..|nodes| - 1], a);
    LeavesLast(rows, q, nodes, b);
    assert LeavesAt(q.dir, nodes, a, x) && LeavesAt(q.dir, nodes, b, |nodes| - 1);
  }

  lemma SameNode(rows: seq<Relation>, q: Query, nodes: seq<Handle>, i: nat, j: nat)
    requires nodes != [] && i < j < |Adjacent(rows, q, nodes[|nodes| - 1])|
    ensures var es := Adjacent(rows, q, nodes[|nodes| - 1]); RowBefore(q.dir, nodes, es[i], es[j])
  {
    hide Leads, NotAfter, Adjacent;
    var es := Adjacent(rows, q, nodes[|nodes| - 1]);
    AdjacentColumns(rows, q, nodes[|nodes| - 1]);
    LeavesLast(rows, q, nodes, es[i]);
    LeavesLast(rows, q, nodes, es[j]);
  }

  lemma OrderJoin(dir: Direction, nodes: seq<Handle>, a: seq<Relation>, b: seq<Relation>)
    requires NodeByNode(dir, nodes, a) && NodeByNode(dir, nodes, b)
    requires forall x, y :: x in a && y in b ==> RowBefore(dir, nodes, x, y)
    ensures NodeByNode(dir, nodes, a + b)
  {
    hide RowBefore;
    var c := a + b;
    forall i, j | 0 <= i < j < |c| ensures RowBefore(dir, nodes, c[i], c[j]) {
      if j < |a| {
        assert c[i] == a[i] && c[j] == a[j];
      } else if i < |a| {
        assert c[i] in a && c[j] in b;
      } else {
        assert c[i] == b[i - |a|] && c[j] == b[j - |a|];
      }
    }
  }

  lemma {:induction false} OutgoingOrder(rows: seq<Relation>, q: Query, nodes: seq<Handle>)
    ensures NodeByNode(q.dir, nodes, Outgoing(Neighbours(rows, q), nodes))
  {
    hide RowBefore, Adjacent, Outgoing;
    if nodes == [] {
      NothingOutgoing(rows, q);
    } else {
      var init, last := nodes[..|nodes| - 1], nodes[|nodes| - 1];
      var before, es := Outgoing(Neighbours(rows, q), init), Adjacent(rows, q, last);
      OutgoingOrder(rows, q, init);
      forall i, j | 0 <= i < j < |before| ensures RowBefore(q.dir, nodes, before[i], before[j]) {
        BeforeStays(q.dir, nodes, before[i], before[j]);
      }
      forall i, j | 0 <= i < j < |es| ensures RowBefore(q.dir, nodes, es[i], es[j]) {
        SameNode(rows, q, nodes, i, j);
      }
      forall x, y | x in before && y in es ensures RowBefore(q.dir, nodes, x, y) {
        EarlierNode(rows, q, nodes, x, y);
      }
      OrderJoin(q.dir, nodes, before, es);
      OutgoingStep(Neighbours(rows, q), init, last);
      assert nodes == init + [last];
    }
  }

  lemma NothingOutgoing(rows: seq<Relation>, q: Query)
    ensures Outgoing(Neighbours(rows, q), []) == []
  {
  }

  lemma LeavesLast(rows: seq<Relation>, q: Query, nodes: seq<Handle>, e: Relation)
    requires nodes != [] && e in Adjacent(rows, q, nodes[|nodes| - 1])
    ensures LeavesAt(q.dir, nodes, e, |nodes| - 1)
  {
    hide Sorted, Where;
  }

  lemma LeavesBefore(rows: seq<Relation>, q: Query, nodes: seq<Handle>, e: Relation) returns (x: nat)
    requires e in Outgoing(Neighbours(rows, q), nodes)
    ensures LeavesAt(q.dir, nodes, e, x)
  {
    hide Outgoing, Sorted, Where;
    x :| 0 <= x < |nodes| && e in Neighbours(rows, q)(nodes[x]);
    assert e in Adjacent(rows, q, nodes[x]);
  }

  /** Leaving rows out keeps the order. */
  lemma {:induction false} ChosenOrder(dir: Direction, nodes: seq<Handle>, es: seq<Relation>, visited: set<Handle>)
    requires NodeByNode(dir, nodes, es)
    ensures NodeByNode(dir, nodes, Chosen(dir, es, visited))
  {
    hide RowBefore;
    if es != [] {
      var init, last := es[..|es| - 1], es[|es| - 1];
      forall i, j | 0 <= i < j < |init| ensures RowBefore(dir, nodes, init[i], init[j]) {
        assert init[i] == es[i] && init[j] == es[j];
      }
      ChosenOrder(dir, nodes, init, visited);
      var before := Chosen(dir, init, visited);
      forall e | e in before ensures RowBefore(dir, nodes, e, last) {
        var l :| 0 <= l < |init| && init[l] == e;
        assert es[l] == e && es[|es| - 1] == last;
      }
    }
  }

  /** The selected rows come in the order of the nodes that they leave, and those of one node in query order. */
  lemma SelectedOrder(rows: seq<Relation>, q: Query, root: Handle, n: int, d: int)
    ensures NodeByNode(q.dir, SliceOf(rows, q, root, n, d).seen, SliceOf(rows, q, root, n, d).edges)
  {
    hide NodeByNode, FullOrder, Cut, Chosen, Rejected, Outgoing;
    var o := SliceOf(rows, q, root, n, d);
    OutgoingOrder(rows, q, o.seen);
    var c := SeenIsPrefix(rows, q, root, n, d);
    ChosenOrder(q.dir, o.seen, Outgoing(Neighbours(rows, q), o.seen), Nodes(FullOrder(rows, q, root)[..c]));
  }

  // ---- The order of the visits -------------------------------------------------------------------------------

  /** The row at a place: row number `place.1` of those that lead away from node number `place.0`. */
  type Place = (nat, nat)

  predicate Earlier(a: Place, b: Place) {
    a.0 < b.0 || (a.0 == b.0 && a.1 < b.1)
  }

  predicate IsPlace(adj: Adjacency, o: seq<Visit>, at: Place) {
    at.0 < |o| && at.1 < |adj(o[at.0].node)|
  }

  function FarAt(dir: Direction, adj: Adjacency, o: seq<Visit>, at: Place): Handle
    requires IsPlace(adj, o, at)
  {
    Far(dir, adj(o[at.0].node)[at.1])
  }

  /** The first row that leads to `h` is at the place. */
  ghost predicate FirstLeads(dir: Direction, adj: Adjacency, o: seq<Visit>, h: Handle, at: Place) {
    && IsPlace(adj, o, at) && FarAt(dir, adj, o, at) == h
    && forall x: Place :: IsPlace(adj, o, x) && Earlier(x, at) ==> FarAt(dir, adj, o, x) != h
  }

  /** Every node but the target comes after the node whose row first leads to it, and in the order of these rows. */
  ghost predicate ByFirstRow(dir: Direction, adj: Adjacency, o: seq<Visit>, places: seq<Place>) {
    && |places| == |o|
    && (forall j :: 1 <= j < |o| ==> FirstLeads(dir, adj, o, o[j].node, places[j]) && places[j].0 < j)
    && (forall i, j :: 1 <= i < j < |o| ==> Earlier(places[i], places[j]))
  }

  /** And the rows before the place `at` have been followed. */
  ghost predicate Followed(dir: Direction, adj: Adjacency, o: seq<Visit>, places: seq<Place>, at: Place) {
    && ByFirstRow(dir, adj, o, places)
    && (forall j :: 1 <= j < |o| ==> Earlier(places[j], at))
    && (forall x: Place :: IsPlace(adj, o, x) && Earlier(x, at) ==> Found(o, FarAt(dir, adj, o, x)))
  }

  /** A list that grows at its end keeps its first rows. */
  lemma FirstLeadsStays(dir: Direction, adj: Adjacency, o: seq<Visit>, v: Visit, h: Handle, at: Place)
    requires FirstLeads(dir, adj, o, h, at)
    ensures FirstLeads(dir, adj, o + [v], h, at)
  {
    forall x: Place | IsPlace(adj, o + [v], x) && Earlier(x, at) ensures FarAt(dir, adj, o + [v], x) != h {
      assert IsPlace(adj, o, x) && FarAt(dir, adj, o, x) == FarAt(dir, adj, o + [v], x);
    }
  }

  /** One more row is followed. */
  lemma FollowOne(dir: Direction, adj: Adjacency, o: seq<Visit>, places: seq<Place>, at: Place, depth: nat)
    returns (more: seq<Place>)
    requires Followed(dir, adj, o, places, at) && IsPlace(adj, o, at)
    ensures Followed(dir, adj, Meet(dir, o, depth, adj(o[at.0].node)[at.1]), more, (at.0, at.1 + 1))
  {
    hide FirstLeads, Found;
    var e := adj(o[at.0].node)[at.1];
    var h, after := Far(dir, e), Meet(dir, o, depth, e);
    if Found(o, h) {
      more := places;
    } else {
      var v := Visit(h, depth);
      more := places + [at];
      forall j | 1 <= j < |after| ensures FirstLeads(dir, adj, after, after[j].node, more[j]) && more[j].0 < j {
        if j < |o| {
          FirstLeadsStays(dir, adj, o, v, o[j].node, places[j]);
        } else {
          NewFirst(dir, adj, o, places, at, v);
        }
      }
    }
    forall x: Place | IsPlace(adj, after, x) && Earlier(x, (at.0, at.1 + 1)) ensures Found(after, FarAt(dir, adj, after, x)) {
      assert IsPlace(adj, o, x) && FarAt(dir, adj, o, x) == FarAt(dir, adj, after, x);
      FoundMeet(dir, o, depth, e, FarAt(dir, adj, o, x));
      assert x == at || Earlier(x, at);
    }
  }

  lemma NewFirst(dir: Direction, adj: Adjacency, o: seq<Visit>, places: seq<Place>, at: Place, v: Visit)
    requires Followed(dir, adj, o, places, at) && IsPlace(adj, o, at)
    requires v.node == FarAt(dir, adj, o, at) && !Found(o, v.node)
    ensures FirstLeads(dir, adj, o + [v], v.node, at)
  {
    hide Found, FirstLeads;
    assert FirstLeads(dir, adj, o, v.node, at) by {
      NoneBefore(dir, adj, o, places, at, v.node);
    }
    FirstLeadsStays(dir, adj, o, v, v.node, at);
  }

  lemma NoneBefore(dir: Direction, adj: Adjacency, o: seq<Visit>, places: seq<Place>, at: Place, h: Handle)
    requires Followed(dir, adj, o, places, at) && IsPlace(adj, o, at) && FarAt(dir, adj, o, at) == h && !Found(o, h)
    ensures FirstLeads(dir, adj, o, h, at)
  {
    hide Found, ByFirstRow;
  }

  /** All rows of one node are followed. */
  lemma {:induction false} FollowNode(dir: Direction, adj: Adjacency, o: seq<Visit>, places: seq<Place>, k: nat,
                                      depth: nat, count: nat) returns (more: seq<Place>)
    requires k < |o| && count <= |adj(o[k].node)| && Followed(dir, adj, o, places, (k, 0))
    ensures Followed(dir, adj, Expand(dir, o, depth, adj(o[k].node)[..count]), more, (k, count))
    decreases count
  {
    hide Followed, Meet;
    var es := adj(o[k].node);
    if count == 0 {
      more := places;
    } else {
      var before := Expand(dir, o, depth, es[..count - 1]);
      var some := FollowNode(dir, adj, o, places, k, depth, count - 1);
      ExpandGrows(dir, o, depth, es[..count - 1]);
      assert es[..count][..count - 1] == es[..count - 1];
      assert before[k] == o[k];
      more := FollowOne(dir, adj, before, some, (k, count - 1), depth);
    }
  }

  lemma NextNode(dir: Direction, adj: Adjacency, o: seq<Visit>, places: seq<Place>, k: nat, h: Handle)
    requires Followed(dir, adj, o, places, (k, |adj(h)|)) && k < |o| && o[k].node == h
    ensures Followed(dir, adj, o, places, (k + 1, 0))
  {
    hide ByFirstRow, Found;
    forall x: Place | IsPlace(adj, o, x) && Earlier(x, (k + 1, 0)) ensures Found(o, FarAt(dir, adj, o, x)) {
      assert Earlier(x, (k, |adj(h)|));
    }
  }

  lemma {:induction false} OrderFollowed(dir: Direction, adj: Adjacency, root: Handle, k: nat)
    returns (places: seq<Place>)
    ensures ByFirstRow(dir, adj, Order(dir, adj, root, k), places)
    ensures k <= |Order(dir, adj, root, k)| ==> Followed(dir, adj, Order(dir, adj, root, k), places, (k, 0))
  {
    hide Followed, Expand;
    if k == 0 {
      places := [(0, 0)];
      NothingFollowed(dir, adj, root);
    } else {
      var o := Order(dir, adj, root, k - 1);
      places := OrderFollowed(dir, adj, root, k - 1);
      if k - 1 < |o| {
        var es := adj(o[k - 1].node);
        places := FollowNode(dir, adj, o, places, k - 1, o[k - 1].depth + 1, |es|);
        assert es[..|es|] == es;
        ExpandGrows(dir, o, o[k - 1].depth + 1, es);
        NextNode(dir, adj, Order(dir, adj, root, k), places, k - 1, o[k - 1].node);
        FollowedRows(dir, adj, Order(dir, adj, root, k), places, (k, 0));
      }
    }
  }

  lemma NothingFollowed(dir: Direction, adj: Adjacency, root: Handle)
    ensures Followed(dir, adj, [Visit(root, 0)], [(0, 0)], (0, 0))
    ensures ByFirstRow(dir, adj, [Visit(root, 0)], [(0, 0)])
  {
  }

  lemma FollowedRows(dir: Direction, adj: Adjacency, o: seq<Visit>, places: seq<Place>, at: Place)
    requires Followed(dir, adj, o, places, at)
    ensures ByFirstRow(dir, adj, o, places)
  {
    hide ByFirstRow, Found;
  }

  /** The order of the visits: breadth first, siblings in the order of the rows that first lead to them. */
  lemma VisitOrder(rows: seq<Relation>, q: Query, root: Handle)
    ensures exists places :: ByFirstRow(q.dir, Neighbours(rows, q), FullOrder(rows, q, root), places)
  {
    hide ByFirstRow, Followed, Neighbours, Order, Universe;
    var places := OrderFollowed(q.dir, Neighbours(rows, q), root, |Universe(rows, q.dir, root)|);
    assert ByFirstRow(q.dir, Neighbours(rows, q), FullOrder(rows, q, root), places);
  }
}
