/**
 * When an earlier function is named like a key, the adapter answers a request for that key with the earlier function.
 * Neither of the two keeps its snapshot.
 */
module Namesakes {
  import opened Wrappers
  import opened Keys
  import opened Records
  import opened Adapter
  import opened AdapterProperties
  import opened Snapshot
  import opened SnapshotProperties
  import opened SnapshotTheorems
  import opened SnapshotContent
  import opened EndToEnd
  import R = Relations

  /** Every definition of the module is what a request for its key finds. Declarations are never requested. */
  predicate Faithful(m: Module) {
    forall k :: 0 <= k < |m.functions| && !m.functions[k].declaration ==> Select(m, FunctionKey(k)) == Some(k)
  }

  /** The relation rows of function `j` as they are stored for the function `f`. */
  function GraphRows(short: string, f: Handle, m: Module, j: nat, run: string): seq<R.Relation>
    requires j < |m.functions| && WellFormed(m, m.functions[j])
  {
    RelationRows(short, f, run, RelationsOf(EmittedAll(Graph(m, j))))
  }

  lemma CataloguedStays(t: Tables, short: string, key: string, f: Handle, rs: seq<Record<string>>, run: string,
                        b: string, m: Module)
    requires Fitting(t, short, key, rs) && IsShort(b) && Catalogued(t, b, m)
    ensures Catalogued(After(t, short, f, rs, run), b, m)
  {
    hide After, EntityId, Render, Keyed, GoodRecords, IsShort;
    forall n | 0 <= n < |m.functions|
      ensures EntityId(b, Render(FunctionOf(n))) in After(t, short, f, rs, run).entities
    {
      CommitOutside(t, short, key, f, rs, run, EntityId(b, Render(FunctionOf(n))));
      FunctionKept(t.entities, f, b, n);
    }
  }

  /** The entity of a function has no owner, so no commit deletes it. */
  lemma FunctionKept(es: map<Handle, EntityRow>, f: Handle, b: string, n: nat)
    requires Keyed(es) && IsShort(b) && EntityId(b, Render(FunctionOf(n))) in es
    ensures EntityId(b, Render(FunctionOf(n))) in KeptEntities(es, f)
    ensures es[EntityId(b, Render(FunctionOf(n)))].functionId == None
  {
    hide EntityId, Render, Scope, IsShort;
    var id := EntityId(b, Render(FunctionOf(n)));
    RenderHasColon(FunctionOf(n));
    ScopeOfRender(FunctionOf(n));
    RowAt(es, b, Render(FunctionOf(n)));
    assert KeyOk(id, es[id]);
  }

  /** The graph of any function `j` can be committed for any function `f` of any keyed tables. */
  lemma AnyCommit(t: Tables, short: string, m: Module, j: nat, f: Handle, run: string)
    requires Keyed(t.entities) && IsShort(short) && Catalogued(t, short, m)
    requires j < |m.functions| && WellFormed(m, m.functions[j])
    ensures Fitting(t, short, FunctionKey(j), EmittedAll(Graph(m, j)))
    ensures Replaced(t, short, f, EmittedAll(Graph(m, j)), run).Ok?
    ensures var t' := After(t, short, f, EmittedAll(Graph(m, j)), run);
            && Keyed(t'.entities) && RowsOf(f, t'.relations) == GraphRows(short, f, m, j, run)
            && forall b, m' :: IsShort(b) && Catalogued(t, b, m') ==> Catalogued(t', b, m')
  {
    hide Graph, WellFormed, EmittedAll, Keyed, IsShort, Catalogued, After, Replaced, GoodRecords, RowsOf, RelationsOf;
    var rs, key := EmittedAll(Graph(m, j)), FunctionKey(j);
    AdapterRecordsFit(t, short, m, j);
    AfterParts(t, short, key, f, rs, run);
    KeyedStays(t, short, key, f, rs, run);
    RelationsReplaced(t, short, key, f, rs, run);
    forall b, m' | IsShort(b) && Catalogued(t, b, m') ensures Catalogued(After(t, short, f, rs, run), b, m') {
      CataloguedStays(t, short, key, f, rs, run, b, m');
    }
  }

  // ---- What the rows of a function show ----------------------------------------------------------------------

  /** The first block of a function, as the source of some row. */
  predicate FromFirstBlock(short: string, k: nat, r: R.Relation) {
    r.src == HandleOf(short, BlockOf(k, 0))
  }

  /** A function with a body has a row that leaves its first block. */
  lemma OwnBlockRow(short: string, f: Handle, m: Module, k: nat, run: string)
    requires k < |m.functions| && WellFormed(m, m.functions[k]) && |m.functions[k].blocks| > 0
    ensures exists r :: r in GraphRows(short, f, m, k, run) && FromFirstBlock(short, k, r)
  {
    hide Graph, EntityId, Render, RelationsOf, InstructionInRange, Base;
    var graph := Graph(m, k);
    assert BlockInRange(m, m.functions[k], m.functions[k].blocks[0]);
    ContainsInGraph(m, k, 0, 0);
    var c := Contains(BlockOf(k, 0), InstructionOf(k, Base(m.functions[k].blocks, 0) + 0));
    var j :| 0 <= j < |graph| && graph[j] == c;
    assert EmittedAll(graph)[j] == Emitted(c);
    var rels := RelationsOf(EmittedAll(graph));
    assert Emitted(c) in EmittedAll(graph) && Emitted(c) in rels;
    var i :| 0 <= i < |rels| && rels[i] == Emitted(c);
    assert RelationRows(short, f, run, rels)[i] in GraphRows(short, f, m, k, run);
  }

  /** No other function's graph has such a row. */
  lemma ForeignBlockRow(short: string, f: Handle, m: Module, j: nat, run: string, k: nat, r: R.Relation)
    requires IsShort(short) && j < |m.functions| && WellFormed(m, m.functions[j]) && j != k
    requires r in GraphRows(short, f, m, j, run)
    ensures !FromFirstBlock(short, k, r)
  {
    hide Graph, EntityId, Render, EmittedAll, RelationsOf, WellFormed, IsShort;
    var rels := RelationsOf(EmittedAll(Graph(m, j)));
    var rows := RelationRows(short, f, run, rels);
    var i :| 0 <= i < |rows| && rows[i] == r;
    assert rels[i] in rels;
    ForeignSource(short, m, j, k, rels[i]);
  }

  lemma ForeignSource(short: string, m: Module, j: nat, k: nat, rel: Record<string>)
    requires IsShort(short) && j < |m.functions| && WellFormed(m, m.functions[j]) && j != k
    requires rel in EmittedAll(Graph(m, j)) && rel.Relation?
    ensures EntityId(short, rel.src) != HandleOf(short, BlockOf(k, 0))
  {
    hide Graph, EntityId, Render, WellFormed, IsShort, Structure, Known, Declares, Holder, Scope, Tabled;
    var graph := Graph(m, j);
    var n :| 0 <= n < |graph| && EmittedAll(graph)[n] == rel;
    GraphSound(m, j);
    WholeFits(m, j, n);
    KnownInScope(m, j, Whole(m, j), graph[n].src);
    HandleInjective(short, graph[n].src, short, BlockOf(k, 0));
    ScopeOfRender(BlockOf(k, 0));
    if FunctionKey(k) == FunctionKey(j) {
      FunctionKeyInjective(k, j);
    }
  }

  lemma GraphsDiffer(short: string, f: Handle, m: Module, j: nat, k: nat, run: string, run': string)
    requires IsShort(short) && j < |m.functions| && k < |m.functions| && j != k
    requires WellFormed(m, m.functions[j]) && WellFormed(m, m.functions[k]) && |m.functions[k].blocks| > 0
    ensures GraphRows(short, f, m, j, run) != GraphRows(short, f, m, k, run')
  {
    hide GraphRows, WellFormed, FromFirstBlock, IsShort;
    OwnBlockRow(short, f, m, k, run');
    var r :| r in GraphRows(short, f, m, k, run') && FromFirstBlock(short, k, r);
    if r in GraphRows(short, f, m, j, run) {
      ForeignBlockRow(short, f, m, j, run, k, r);
    }
  }

  // ---- Both functions lose -----------------------------------------------------------------------------------

  /**
   * Committing the graph of `j` for the function `k` succeeds, and stores exactly the rows of `j` under `k`. If `k` has
   * a body, these are not its own rows, whichever run wrote them.
   */
  lemma NamesakeTakesOver(t: Tables, short: string, m: Module, j: nat, k: nat, run: string)
    requires Keyed(t.entities) && IsShort(short) && Catalogued(t, short, m)
    requires j < |m.functions| && k < |m.functions| && j != k
    requires WellFormed(m, m.functions[j]) && WellFormed(m, m.functions[k])
    ensures var h, rs := OwnHandle(short, k), EmittedAll(Graph(m, j));
            && Replaced(t, short, h, rs, run).Ok?
            && RowsOf(h, After(t, short, h, rs, run).relations) == GraphRows(short, h, m, j, run)
            && (|m.functions[k].blocks| > 0 ==>
                forall r :: RowsOf(h, After(t, short, h, rs, run).relations) != GraphRows(short, h, m, k, r))
  {
    hide *;
    var h := OwnHandle(short, k);
    AnyCommit(t, short, m, j, h, run);
    if |m.functions[k].blocks| > 0 {
      forall r ensures GraphRows(short, h, m, j, run) != GraphRows(short, h, m, k, r) {
        GraphsDiffer(short, h, m, j, k, run, r);
      }
    }
  }

  /** The inner entities of the committed graph end up under the function it was committed for. */
  lemma TakenBlock(t: Tables, short: string, m: Module, j: nat, f: Handle, run: string)
    requires Keyed(t.entities) && IsShort(short) && Catalogued(t, short, m)
    requires j < |m.functions| && WellFormed(m, m.functions[j]) && |m.functions[j].blocks| > 0
    ensures Owned(After(t, short, f, EmittedAll(Graph(m, j)), run).entities, f, HandleOf(short, BlockOf(j, 0)))
  {
    hide Graph, WellFormed, EmittedAll, Keyed, Catalogued, EntitiesOf, EntityId, GoodRecords, BlockIdFor, After,
         Render;
    var i := BlockEmitted(m, j, 0);
    AdapterRecordsFit(t, short, m, j);
    AfterRow(t, short, FunctionKey(j), f, EmittedAll(Graph(m, j)), run, i);
  }

  /**
   * And when it is committed for `k` once more, the rows of `j` itself go: after the first commit its entities are
   * under `k`, so the second one deletes every row that touches them.
   */
  lemma NamesakeIsRobbed(t: Tables, short: string, m: Module, j: nat, k: nat, run: string, again: string)
    requires Keyed(t.entities) && IsShort(short) && Catalogued(t, short, m)
    requires j < |m.functions| && k < |m.functions| && j != k
    requires WellFormed(m, m.functions[j]) && |m.functions[j].blocks| > 0
    ensures var h, rs := OwnHandle(short, k), EmittedAll(Graph(m, j));
            var t1 := After(t, short, h, rs, run);
            && Replaced(t, short, h, rs, run).Ok? && Replaced(t1, short, h, rs, again).Ok?
            && forall r :: RowsOf(OwnHandle(short, j), After(t1, short, h, rs, again).relations) !=
                           GraphRows(short, OwnHandle(short, j), m, j, r)
  {
    hide Graph, WellFormed, EmittedAll, Keyed, Catalogued, EntityId, Render, After, GoodRecords, OwnHandle, GraphRows, RowsOf,
         IsShort, FromFirstBlock, Replaced;
    var h, rs, own := OwnHandle(short, k), EmittedAll(Graph(m, j)), OwnHandle(short, j);
    AnyCommit(t, short, m, j, h, run);
    var t1 := After(t, short, h, rs, run);
    TakenBlock(t, short, m, j, h, run);
    AnyCommit(t1, short, m, j, h, again);
    var t2 := After(t1, short, h, rs, again);
    forall r ensures RowsOf(own, t2.relations) != GraphRows(short, own, m, j, r) {
      OwnBlockRow(short, own, m, j, r);
      var x :| x in GraphRows(short, own, m, j, r) && FromFirstBlock(short, j, x);
      if x in RowsOf(own, t2.relations) {
        RobbedRow(t1, short, m, j, k, again, x);
      }
    }
  }

  lemma RobbedRow(t1: Tables, short: string, m: Module, j: nat, k: nat, again: string, x: R.Relation)
    requires j != k && j < |m.functions| && WellFormed(m, m.functions[j])
    requires Fitting(t1, short, FunctionKey(j), EmittedAll(Graph(m, j)))
    requires Owned(t1.entities, OwnHandle(short, k), HandleOf(short, BlockOf(j, 0))) && FromFirstBlock(short, j, x)
    ensures x !in RowsOf(OwnHandle(short, j),
                         After(t1, short, OwnHandle(short, k), EmittedAll(Graph(m, j)), again).relations)
  {
    hide Graph, WellFormed, EmittedAll, EntityId, Render, After, RowsOf, RelationsOf, FunctionHandle, Keyed,
         GoodRecords, IsShort;
    var h, rs, own := OwnHandle(short, k), EmittedAll(Graph(m, j)), OwnHandle(short, j);
    AfterParts(t1, short, FunctionKey(j), h, rs, again);
    RowsOfAt(own, After(t1, short, h, rs, again).relations, x);
    KeptRelationsIn(t1.entities, h, t1.relations);
    FunctionHandleInjective(short, FunctionKey(j), short, FunctionKey(k));
    if FunctionKey(j) == FunctionKey(k) {
      FunctionKeyInjective(j, k);
    }
    NewRowOwner(short, h, again, RelationsOf(rs), x);
  }

  lemma NewRowOwner(short: string, f: Handle, run: string, rels: seq<Record<string>>, x: R.Relation)
    requires forall r :: r in rels ==> r.Relation?
    ensures x in RelationRows(short, f, run, rels) ==> x.functionId == Some(f)
  {
  }
}
