/**
 * What a slice depends on: the rows of its own function, whatever else the table holds, and not the runs that wrote
 * them.
 */
module SliceRows {
  import opened Relations
  import opened Discovery
  import opened Slice
  import opened SliceProperties

  // ---- Equal adjacency ---------------------------------------------------------------------------------------

  /** Two tables in which every query of a node finds the same rows give the same slice. */
  lemma SameAnswers(more: seq<Relation>, rows: seq<Relation>, q: Query, root: Handle, n: int, d: int)
    requires forall node :: Adjacent(more, q, node) == Adjacent(rows, q, node)
    requires |Universe(rows, q.dir, root)| <= |Universe(more, q.dir, root)|
    ensures SliceOf(more, q, root, n, d) == SliceOf(rows, q, root, n, d)
  {
    hide Adjacent, Universe, Order, CutOutcome, Within;
    var a, b := Neighbours(more, q), Neighbours(rows, q);
    var k := |Universe(more, q.dir, root)|;
    OrderCongruent(q.dir, a, b, root, k);
    NeighboursWithin(rows, q, root);
    OrderCompletes(q.dir, b, root, Universe(rows, q.dir, root), k);
    CutCongruent(q.dir, a, b, FullOrder(more, q, root), n, d);
  }

  lemma CutCongruent(dir: Direction, a: Adjacency, b: Adjacency, order: seq<Visit>, n: int, d: int)
    requires forall node :: a(node) == b(node)
    ensures CutOutcome(dir, a, order, n, d) == CutOutcome(dir, b, order, n, d)
  {
    hide CutFrom, Chosen, Rejected, Outgoing;
    OutgoingCongruent(a, b, Names(order[..Cut(order, n, d)]));
  }

  // ---- Rows of other functions -------------------------------------------------------------------------------

  /** A slice is the slice of the rows of its function. */
  lemma OtherRowsIgnored(rows: seq<Relation>, q: Query, root: Handle, n: int, d: int)
    ensures SliceOf(rows, q, root, n, d) == SliceOf(OfFunction(q, rows), q, root, n, d)
  {
    hide SliceOf, Where, Sorted;
    var own := OfFunction(q, rows);
    forall node ensures Adjacent(rows, q, node) == Adjacent(own, q, node) {
      WhereOfFunction(q, node, rows);
    }
    FewerHandles(own, rows, q, root);
    SameAnswers(rows, own, q, root, n, d);
  }

  lemma FewerHandles(few: seq<Relation>, rows: seq<Relation>, q: Query, root: Handle)
    requires forall e :: e in few ==> e in rows
    ensures |Universe(few, q.dir, root)| <= |Universe(rows, q.dir, root)|
  {
    SubsetSize(Universe(few, q.dir, root), Universe(rows, q.dir, root));
  }

  lemma SubsetSize(a: set<Handle>, b: set<Handle>)
    requires a <= b
    ensures |a| <= |b|
  {
    assert b == a + (b - a);
  }

  // ---- Runs --------------------------------------------------------------------------------------------------

  /** The same rows, all written by one run. */
  function Rerun(rows: seq<Relation>, run: string): (r: seq<Relation>)
    ensures |r| == |rows| && forall i :: 0 <= i < |rows| ==> r[i] == rows[i].(run := run)
  {
    if rows == [] then [] else [rows[0].(run := run)] + Rerun(rows[1..], run)
  }

  /** The same answer, with all rows written by one run. */
  function RerunOutcome(o: Outcome, run: string): Outcome {
    o.(edges := Rerun(o.edges, run))
  }

  lemma RerunLast(rows: seq<Relation>, run: string)
    requires rows != []
    ensures Rerun(rows, run)[..|rows| - 1] == Rerun(rows[..|rows| - 1], run)
  {
  }

  lemma RerunFirst(rows: seq<Relation>, run: string)
    requires rows != []
    ensures Rerun(rows, run)[1..] == Rerun(rows[1..], run)
  {
  }

  lemma {:induction false} WhereRerun(q: Query, node: Handle, rows: seq<Relation>, run: string)
    ensures Where(q, node, Rerun(rows, run)) == Rerun(Where(q, node, rows), run)
  {
    if rows != [] {
      RerunFirst(rows, run);
      WhereRerun(q, node, rows[1..], run);
    }
  }

  lemma {:induction false} InsertRerun(order: OrderBy, e: Relation, rows: seq<Relation>, run: string)
    ensures Insert(order, e.(run := run), Rerun(rows, run)) == Rerun(Insert(order, e, rows), run)
  {
    if rows != [] {
      LeqRerun(order, e, rows[0], run);
      RerunFirst(rows, run);
      InsertRerun(order, e, rows[1..], run);
    }
  }

  lemma LeqRerun(order: OrderBy, a: Relation, b: Relation, run: string)
    ensures Leq(order, a.(run := run), b.(run := run)) <==> Leq(order, a, b)
  {
  }

  lemma {:induction false} SortRerun(order: OrderBy, rows: seq<Relation>, run: string)
    ensures Sort(order, Rerun(rows, run)) == Rerun(Sort(order, rows), run)
  {
    hide Insert;
    if rows != [] {
      RerunFirst(rows, run);
      SortRerun(order, rows[1..], run);
      InsertRerun(order, rows[0], Sort(order, rows[1..]), run);
    }
  }

  lemma AdjacentRerun(rows: seq<Relation>, q: Query, node: Handle, run: string)
    ensures Adjacent(Rerun(rows, run), q, node) == Rerun(Adjacent(rows, q, node), run)
  {
    hide Where, Sort, Rerun, Sorted;
    WhereRerun(q, node, rows, run);
    SortRerun(ByKind, Where(q, node, rows), run);
  }

  /** Every query finds the same rows but for their run. */
  ghost predicate Reran(a: Adjacency, b: Adjacency, run: string) {
    forall node :: b(node) == Rerun(a(node), run)
  }

  lemma {:induction false} ExpandRerun(dir: Direction, order: seq<Visit>, depth: nat, es: seq<Relation>, run: string)
    ensures Expand(dir, order, depth, Rerun(es, run)) == Expand(dir, order, depth, es)
  {
    if es != [] {
      RerunLast(es, run);
      ExpandRerun(dir, order, depth, es[..|es| - 1], run);
    }
  }

  lemma {:induction false} OrderRerun(dir: Direction, a: Adjacency, b: Adjacency, root: Handle, k: nat, run: string)
    requires Reran(a, b, run)
    ensures Order(dir, b, root, k) == Order(dir, a, root, k)
  {
    hide Expand, Rerun;
    if k > 0 {
      OrderRerun(dir, a, b, root, k - 1, run);
      var o := Order(dir, a, root, k - 1);
      if k - 1 < |o| {
        ExpandRerun(dir, o, o[k - 1].depth + 1, a(o[k - 1].node), run);
      }
    }
  }

  lemma RerunJoin(a: seq<Relation>, b: seq<Relation>, run: string)
    ensures Rerun(a + b, run) == Rerun(a, run) + Rerun(b, run)
  {
  }

  lemma {:induction false} OutgoingRerun(a: Adjacency, b: Adjacency, nodes: seq<Handle>, run: string)
    requires Reran(a, b, run)
    ensures Outgoing(b, nodes) == Rerun(Outgoing(a, nodes), run)
  {
    hide Rerun;
    if nodes == [] {
      RerunNothing(run);
    } else {
      OutgoingRerun(a, b, nodes[..|nodes| - 1], run);
      RerunJoin(Outgoing(a, nodes[..|nodes| - 1]), a(nodes[|nodes| - 1]), run);
    }
  }

  lemma RerunNothing(run: string)
    ensures Rerun([], run) == []
  {
  }

  lemma {:induction false} ChosenRerun(dir: Direction, es: seq<Relation>, visited: set<Handle>, run: string)
    ensures Chosen(dir, Rerun(es, run), visited) == Rerun(Chosen(dir, es, visited), run)
  {
    hide Rerun;
    if es == [] {
      RerunNothing(run);
    } else {
      var init, last := es[..|es| - 1], es[|es| - 1];
      RerunLast(es, run);
      ChosenRerun(dir, init, visited, run);
      RerunJoin(Chosen(dir, init, visited), [last], run);
    }
  }

  lemma {:induction false} RejectedRerun(dir: Direction, es: seq<Relation>, visited: set<Handle>, run: string)
    ensures Rejected(dir, Rerun(es, run), visited) == Rejected(dir, es, visited)
  {
    hide Rerun;
    if es == [] {
      RerunNothing(run);
    } else {
      RerunLast(es, run);
      RejectedRerun(dir, es[..|es| - 1], visited, run);
    }
  }

  lemma CutRerun(dir: Direction, a: Adjacency, b: Adjacency, order: seq<Visit>, n: int, d: int, run: string)
    requires Reran(a, b, run)
    ensures CutOutcome(dir, b, order, n, d) == RerunOutcome(CutOutcome(dir, a, order, n, d), run)
  {
    hide CutFrom, Chosen, Rejected, Outgoing, Rerun, Reran;
    var c := Cut(order, n, d);
    OutgoingRerun(a, b, Names(order[..c]), run);
    ChosenRerun(dir, Outgoing(a, Names(order[..c])), Nodes(order[..c]), run);
    RejectedRerun(dir, Outgoing(a, Names(order[..c])), Nodes(order[..c]), run);
  }

  lemma UniverseRerun(rows: seq<Relation>, q: Query, root: Handle, run: string)
    ensures Universe(Rerun(rows, run), q.dir, root) == Universe(rows, q.dir, root)
  {
    var again := Rerun(rows, run);
    forall h ensures h in Universe(again, q.dir, root) <==> h in Universe(rows, q.dir, root) {
      if e :| e in again && Far(q.dir, e) == h {
        var i :| 0 <= i < |again| && again[i] == e;
        assert rows[i] in rows && Far(q.dir, rows[i]) == h;
      }
      if e :| e in rows && Far(q.dir, e) == h {
        var i :| 0 <= i < |rows| && rows[i] == e;
        assert again[i] in again && Far(q.dir, again[i]) == h;
      }
    }
  }

  /** A slice visits the same nodes and selects the same rows whichever run wrote them. */
  lemma RunsIgnored(rows: seq<Relation>, q: Query, root: Handle, n: int, d: int, run: string)
    ensures SliceOf(Rerun(rows, run), q, root, n, d) == RerunOutcome(SliceOf(rows, q, root, n, d), run)
  {
    hide Adjacent, Universe, Order, CutOutcome, Rerun, RerunOutcome;
    var a, b := Neighbours(rows, q), Neighbours(Rerun(rows, run), q);
    assert Reran(a, b, run) by {
      forall node ensures b(node) == Rerun(a(node), run) {
        AdjacentRerun(rows, q, node, run);
      }
    }
    UniverseRerun(rows, q, root, run);
    OrderRerun(q.dir, a, b, root, |Universe(rows, q.dir, root)|, run);
    CutRerun(q.dir, a, b, FullOrder(rows, q, root), n, d, run);
  }
}
