/**
 * The relations table, and the two ways of reading the adjacency of one node: the indexed query that a slice
 * issues per frontier node, and the preloading form that sorts every relation of the function once and filters
 * inside the loop.
 */
module Relations {
  import opened Wrappers
  import opened Ordering

  type Handle = string

  /** One row of the relations table. Rows are kept in insertion order, which also breaks ties when sorting. */
  datatype Relation = Relation(
    functionId: Option<Handle>,
    src: Handle,
    dst: Handle,
    kind: string,
    ordinal: Option<int>,
    run: string,
    attributes: map<string, string>)

  datatype Direction = Backward | Forward

  /** The end of `e` that a traversal in direction `dir` starts from. */
  function Near(dir: Direction, e: Relation): Handle {
    if dir == Backward then e.src else e.dst
  }

  /** The end of `e` that a traversal in direction `dir` moves to. */
  function Far(dir: Direction, e: Relation): Handle {
    if dir == Backward then e.dst else e.src
  }

  function Reverse(dir: Direction): Direction {
    if dir == Backward then Forward else Backward
  }

  /** A missing ordinal sorts before every number. */
  predicate OrdinalLeq(a: Option<int>, b: Option<int>) {
    a.None? || (b.Some? && a.value <= b.value)
  }

  /** The ORDER BY clauses in use: adjacency queries, and guards found by their dst or by their src column. */
  datatype OrderBy = ByKind | ByDst | BySrc

  /** The column that leads the order. */
  function Leading(order: OrderBy, e: Relation): string {
    match order
    case ByKind => e.kind
    case ByDst => e.dst
    case BySrc => e.src
  }

  /** ByKind sorts by (kind, ordinal, src, dst); the others by their handle column and the ordinal. */
  predicate Leq(order: OrderBy, a: Relation, b: Relation) {
    if Leading(order, a) != Leading(order, b) then TextLeq(Leading(order, a), Leading(order, b))
    else if a.ordinal != b.ordinal then OrdinalLeq(a.ordinal, b.ordinal)
    else if order != ByKind then true
    else if a.src != b.src then TextLeq(a.src, b.src)
    else TextLeq(a.dst, b.dst)
  }

  lemma LeqTotal(order: OrderBy, a: Relation, b: Relation)
    ensures Leq(order, a, b) || Leq(order, b, a)
  {
    TextLeqTotal(Leading(order, a), Leading(order, b));
    TextLeqTotal(a.src, b.src);
    TextLeqTotal(a.dst, b.dst);
  }

  lemma LeqTransitive(order: OrderBy, a: Relation, b: Relation, c: Relation)
    requires Leq(order, a, b) && Leq(order, b, c)
    ensures Leq(order, a, c)
  {
    var x, y, z := Leading(order, a), Leading(order, b), Leading(order, c);
    if x != y || y != z {
      TextChain(x, y, z);
    } else if a.ordinal != b.ordinal || b.ordinal != c.ordinal {
    } else if a.src != b.src || b.src != c.src {
      if order == ByKind {
        TextChain(a.src, b.src, c.src);
      }
    } else if order == ByKind {
      TextLeqTransitive(a.dst, b.dst, c.dst);
    }
  }

  /** Two steps up, at least one of them strict, are a strict step up. */
  lemma TextChain(x: string, y: string, z: string)
    requires x != y || y != z
    requires x != y ==> TextLeq(x, y)
    requires y != z ==> TextLeq(y, z)
    ensures x != z && TextLeq(x, z)
  {
    TextLeqReflexive(x);
    TextLeqReflexive(y);
    TextLeqTransitive(x, y, z);
    if x == z {
      TextLeqAntisymmetric(x, y);
    }
  }

  predicate Sorted(order: OrderBy, es: seq<Relation>) {
    forall i, j :: 0 <= i < j < |es| ==> Leq(order, es[i], es[j])
  }

  /** Puts `e` in front of the first row it does not sort after. */
  function Insert(order: OrderBy, e: Relation, es: seq<Relation>): (r: seq<Relation>)
    ensures multiset(r) == multiset(es) + multiset{e}
  {
    if es == [] then [e]
    else if Leq(order, e, es[0]) then [e] + es
    else
      assert es == [es[0]] + es[1..];
      [es[0]] + Insert(order, e, es[1..])
  }

  /** The rows in query order. Equal keys keep their table order. */
  function Sort(order: OrderBy, es: seq<Relation>): (r: seq<Relation>)
    ensures multiset(r) == multiset(es)
  {
    if es == [] then []
    else
      assert es == [es[0]] + es[1..];
      Insert(order, es[0], Sort(order, es[1..]))
  }

  /** `e` sorts no later than any row of `es`. */
  predicate LeqAll(order: OrderBy, e: Relation, es: seq<Relation>) {
    forall x :: x in es ==> Leq(order, e, x)
  }

  lemma SortedCons(order: OrderBy, e: Relation, es: seq<Relation>)
    requires Sorted(order, es) && LeqAll(order, e, es)
    ensures Sorted(order, [e] + es)
  {
    hide Leq;
    var s := [e] + es;
    forall i, j | 0 <= i < j < |s| ensures Leq(order, s[i], s[j]) {
      assert s[j] == es[j - 1];
      assert i > 0 ==> s[i] == es[i - 1];
    }
  }

  lemma SortedSplit(order: OrderBy, es: seq<Relation>)
    requires Sorted(order, es) && es != []
    ensures Sorted(order, es[1..]) && LeqAll(order, es[0], es[1..])
  {
    hide Leq;
    forall x | x in es[1..] ensures Leq(order, es[0], x) {
      var j :| 0 <= j < |es| - 1 && es[1..][j] == x;
      assert es[j + 1] == x;
    }
  }

  lemma {:induction false} InsertSorted(order: OrderBy, e: Relation, es: seq<Relation>)
    requires Sorted(order, es)
    ensures Sorted(order, Insert(order, e, es))
  {
    hide Leq, Sorted;
    if es == [] {
      SortedCons(order, e, es);
      assert [e] + es == [e];
    } else {
      var head, rest := es[0], es[1..];
      assert es == [head] + rest;
      SortedSplit(order, es);
      if Leq(order, e, head) {
        forall x | x in rest ensures Leq(order, e, x) {
          LeqTransitive(order, e, head, x);
        }
        SortedCons(order, e, es);
      } else {
        LeqTotal(order, e, head);
        InsertSorted(order, e, rest);
        forall x | x in Insert(order, e, rest) ensures Leq(order, head, x) {
          assert x in multiset(Insert(order, e, rest));
        }
        SortedCons(order, head, Insert(order, e, rest));
      }
    }
  }

  lemma {:induction false} SortSorted(order: OrderBy, es: seq<Relation>)
    ensures Sorted(order, Sort(order, es))
  {
    if es != [] {
      SortSorted(order, es[1..]);
      InsertSorted(order, es[0], Sort(order, es[1..]));
    }
  }

  /** The order does not tell the two rows apart. */
  predicate Tie(order: OrderBy, x: Relation, e: Relation) {
    Leq(order, x, e) && Leq(order, e, x)
  }

  /** The row itself, if it ties. */
  function IfTie(order: OrderBy, x: Relation, e: Relation): seq<Relation> {
    if Tie(order, x, e) then [e] else []
  }

  /** The rows that tie with `x`. */
  function Tied(order: OrderBy, x: Relation, es: seq<Relation>): seq<Relation> {
    if es == [] then []
    else IfTie(order, x, es[0]) + Tied(order, x, es[1..])
  }

  lemma TiedCons(order: OrderBy, x: Relation, e: Relation, es: seq<Relation>)
    ensures Tied(order, x, [e] + es) == IfTie(order, x, e) + Tied(order, x, es)
  {
    hide IfTie;
    assert ([e] + es)[1..] == es;
  }

  lemma NotBothTie(order: OrderBy, x: Relation, e: Relation, f: Relation)
    requires !Leq(order, e, f)
    ensures !Tie(order, x, e) || !Tie(order, x, f)
  {
    hide Leq;
    if Leq(order, e, x) && Leq(order, x, f) {
      LeqTransitive(order, e, x, f);
    }
  }

  lemma SwapAround(a: seq<Relation>, b: seq<Relation>, c: seq<Relation>)
    requires a == [] || b == []
    ensures a + (b + c) == b + (a + c)
  {
    assert [] + c == c;
  }

  lemma InsertStep(order: OrderBy, e: Relation, head: Relation, rest: seq<Relation>)
    ensures Insert(order, e, [head] + rest) ==
            if Leq(order, e, head) then [e] + ([head] + rest) else [head] + Insert(order, e, rest)
  {
    hide Leq;
    assert ([head] + rest)[1..] == rest;
  }

  lemma {:induction false} InsertTied(order: OrderBy, e: Relation, es: seq<Relation>, x: Relation)
    ensures Tied(order, x, Insert(order, e, es)) == Tied(order, x, [e] + es)
  {
    hide Leq, Tied, Tie, IfTie;
    if es == [] {
      assert Insert(order, e, es) == [e] + es;
    } else {
      hide Insert;
      var head, rest := es[0], es[1..];
      assert es == [head] + rest;
      InsertStep(order, e, head, rest);
      if !Leq(order, e, head) {
        InsertTied(order, e, rest, x);
        TiedPast(order, e, head, rest, x);
      }
    }
  }

  lemma TiedPast(order: OrderBy, e: Relation, head: Relation, rest: seq<Relation>, x: Relation)
    requires !Leq(order, e, head) && Tied(order, x, Insert(order, e, rest)) == Tied(order, x, [e] + rest)
    ensures Tied(order, x, [head] + Insert(order, e, rest)) == Tied(order, x, [e] + ([head] + rest))
  {
    hide Leq, Tied, Tie, Insert;
    NotBothTie(order, x, e, head);
    TiedCons(order, x, head, Insert(order, e, rest));
    TiedCons(order, x, e, rest);
    TiedCons(order, x, e, [head] + rest);
    TiedCons(order, x, head, rest);
    SwapAround(IfTie(order, x, head), IfTie(order, x, e), Tied(order, x, rest));
  }

  /** Sorting keeps the table order of rows that tie. */
  lemma {:induction false} SortStable(order: OrderBy, es: seq<Relation>, x: Relation)
    ensures Tied(order, x, Sort(order, es)) == Tied(order, x, es)
  {
    hide Tied, Tie, IfTie;
    if es != [] {
      var head, rest := es[0], es[1..];
      SortStable(order, rest, x);
      InsertTied(order, head, Sort(order, rest), x);
      TiedCons(order, x, head, Sort(order, rest));
      TiedCons(order, x, head, rest);
      assert es == [head] + rest;
    }
  }

  /** What a slice asks of the table: one function, a set of kinds and a direction. */
  datatype Query = Query(functionId: Option<Handle>, kinds: set<string>, dir: Direction)

  /** `e` is a row of the queried function and of a queried kind. */
  predicate Eligible(q: Query, e: Relation) {
    q.functionId.Some? && e.functionId == q.functionId && e.kind in q.kinds
  }

  predicate Matches(q: Query, node: Handle, e: Relation) {
    Eligible(q, e) && Near(q.dir, e) == node
  }

  /** The WHERE clause of the adjacency query. */
  function Where(q: Query, node: Handle, es: seq<Relation>): (r: seq<Relation>)
    ensures forall e :: e in r <==> e in es && Matches(q, node, e)
  {
    if es == [] then []
    else if Matches(q, node, es[0]) then [es[0]] + Where(q, node, es[1..])
    else Where(q, node, es[1..])
  }

  /** The adjacency query: filter the table through the index, then sort the few rows found. */
  function Adjacent(rows: seq<Relation>, q: Query, node: Handle): (r: seq<Relation>)
    ensures Sorted(ByKind, r) && multiset(r) == multiset(Where(q, node, rows))
    ensures forall e :: e in r <==> e in rows && Matches(q, node, e)
  {
    SortSorted(ByKind, Where(q, node, rows));
    var r := Sort(ByKind, Where(q, node, rows));
    assert forall e :: e in r <==> e in multiset(Where(q, node, rows));
    r
  }

  /** The rows of the queried function, in table order. */
  function OfFunction(q: Query, es: seq<Relation>): (r: seq<Relation>)
    ensures forall e :: e in r <==> e in es && q.functionId.Some? && e.functionId == q.functionId
  {
    if es == [] then []
    else if q.functionId.Some? && es[0].functionId == q.functionId then [es[0]] + OfFunction(q, es[1..])
    else OfFunction(q, es[1..])
  }

  /** The preloading form: every relation of the function sorted once, filtered again for each node. */
  function Preloaded(rows: seq<Relation>, q: Query): seq<Relation> {
    Sort(ByKind, OfFunction(q, rows))
  }

  lemma WhereCons(q: Query, node: Handle, e: Relation, es: seq<Relation>)
    ensures Where(q, node, [e] + es) == if Matches(q, node, e) then [e] + Where(q, node, es) else Where(q, node, es)
  {
    assert ([e] + es)[1..] == es;
  }

  lemma InsertFirst(e: Relation, es: seq<Relation>)
    requires forall x :: x in es ==> Leq(ByKind, e, x)
    ensures Insert(ByKind, e, es) == [e] + es
  {
    if es != [] {
      assert es[0] in es;
    }
  }

  lemma InsertLater(e: Relation, first: Relation, es: seq<Relation>)
    requires !Leq(ByKind, e, first)
    ensures Insert(ByKind, e, [first] + es) == [first] + Insert(ByKind, e, es)
  {
    assert ([first] + es)[1..] == es;
  }

  lemma {:induction false} WhereInsert(q: Query, node: Handle, e: Relation, es: seq<Relation>)
    requires Sorted(ByKind, es)
    ensures Where(q, node, Insert(ByKind, e, es)) ==
            if Matches(q, node, e) then Insert(ByKind, e, Where(q, node, es)) else Where(q, node, es)
  {
    if es == [] {
    } else if Leq(ByKind, e, es[0]) {
      WhereCons(q, node, e, es);
      forall x | x in Where(q, node, es) ensures Leq(ByKind, e, x) {
        var i :| 0 <= i < |es| && es[i] == x;
        if i > 0 {
          LeqTransitive(ByKind, e, es[0], es[i]);
        }
      }
      InsertFirst(e, Where(q, node, es));
    } else {
      WhereInsert(q, node, e, es[1..]);
      WhereCons(q, node, es[0], Insert(ByKind, e, es[1..]));
      InsertLater(e, es[0], Where(q, node, es[1..]));
    }
  }

  /** Filtering commutes with sorting. */
  lemma {:induction false} WhereSort(q: Query, node: Handle, es: seq<Relation>)
    ensures Where(q, node, Sort(ByKind, es)) == Sort(ByKind, Where(q, node, es))
  {
    if es != [] {
      var rest := es[1..];
      WhereSort(q, node, rest);
      SortSorted(ByKind, rest);
      WhereInsert(q, node, es[0], Sort(ByKind, rest));
      if Matches(q, node, es[0]) {
        SortCons(es[0], Where(q, node, rest));
      }
    }
  }

  lemma SortCons(e: Relation, es: seq<Relation>)
    ensures Sort(ByKind, [e] + es) == Insert(ByKind, e, Sort(ByKind, es))
  {
    assert ([e] + es)[1..] == es;
  }

  lemma {:induction false} WhereOfFunction(q: Query, node: Handle, es: seq<Relation>)
    ensures Where(q, node, OfFunction(q, es)) == Where(q, node, es)
  {
    if es != [] {
      WhereOfFunction(q, node, es[1..]);
      WhereCons(q, node, es[0], OfFunction(q, es[1..]));
    }
  }

  /** The indexed query returns, in the same order, the rows the preloading form finds for the node. */
  lemma AdjacentIsPreloadedWhere(rows: seq<Relation>, q: Query, node: Handle)
    ensures Adjacent(rows, q, node) == Where(q, node, Preloaded(rows, q))
  {
    WhereSort(q, node, OfFunction(q, rows));
    WhereOfFunction(q, node, rows);
  }
}
