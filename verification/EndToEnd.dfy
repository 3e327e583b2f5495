/**
 * From the module that was read to the answers that are given: the adapter's records always commit, and the
 * guards read back from the tables are the control dependences of the module's control-flow graph.
 */
module EndToEnd {
  import opened Wrappers
  import opened Keys
  import opened Records
  import opened Adapter
  import opened AdapterProperties
  import opened Snapshot
  import opened SnapshotProperties
  import opened SnapshotTheorems
  import opened SnapshotContent
  import opened Partition
  import G = Guards
  import R = Relations
  import CD = ControlDependence

  /** The catalog has placed every function of the module. */
  ghost predicate Catalogued(t: Tables, short: string, m: Module) {
    forall n :: 0 <= n < |m.functions| ==> EntityId(short, Render(FunctionOf(n))) in t.entities
  }

  // ---- Keys of emitted records -------------------------------------------------------------------------------

  lemma FunctionText(k: nat)
    ensures Render(FunctionOf(k)) == "function:" + FunctionKey(k)
    ensures ':' !in FunctionKey(k)
  {
    NoColon(k);
    assert "function" + ":" == "function:";
  }

  lemma EmittedDeclares(rs: seq<Record<Local>>, l: Local)
    ensures Declares(EmittedAll(rs), Render(l)) <==> Declares(rs, l)
  {
    hide Render;
    var out := EmittedAll(rs);
    if Declares(rs, l) {
      var i :| 0 <= i < |rs| && rs[i].Entity? && rs[i].local == l;
      assert out[i].Entity? && out[i].local == Render(l);
    }
    if Declares(out, Render(l)) {
      var i :| 0 <= i < |out| && out[i].Entity? && out[i].local == Render(l);
      assert out[i] == Emitted(rs[i]);
      RenderInjective(rs[i].local, l);
    }
  }

  lemma EmittedUnambiguous(rs: seq<Record<Local>>)
    requires Unambiguous(rs)
    ensures Unambiguous(EmittedAll(rs))
  {
    hide Render;
    var out := EmittedAll(rs);
    forall i, j | 0 <= i < j < |out| && out[i].Entity? && out[j].Entity? ensures out[i].local != out[j].local {
      assert out[i] == Emitted(rs[i]) && out[j] == Emitted(rs[j]);
      if out[i].local == out[j].local {
        RenderInjective(rs[i].local, rs[j].local);
      }
    }
  }

  /** A declared or catalogued key belongs to function `k` or to the module. */
  lemma KnownInScope(m: Module, k: nat, e: Emission, l: Local)
    requires k < |m.functions| && Sound(m, m.functions[k], k, e, Full(m.functions[k])) && Known(m, e.records, l)
    ensures InScope(FunctionKey(k), Render(l))
    ensures Scope(Render(l)).Some? ==> Declares(e.records, l)
  {
    hide Render, Scope, Fits, Tabled;
    RenderHasColon(l);
    ScopeOfRender(l);
    assert Declares(e.records, l) ==> Placement(k, e, Full(m.functions[k]), l);
  }

  /** The adapter's records for function `k` are good for any tables in which the module was catalogued. */
  lemma AdapterRecordsFit(t: Tables, short: string, m: Module, k: nat)
    requires Catalogued(t, short, m) && k < |m.functions| && WellFormed(m, m.functions[k])
    ensures GoodRecords(t, short, FunctionKey(k), EmittedAll(Graph(m, k)))
  {
    hide Render, Scope, WellFormed, Graph, Catalogued, EntityId, InScope, Unambiguous, Fits, ModuleScoped;
    var f, e := m.functions[k], Whole(m, k);
    var rs := EmittedAll(e.records);
    GraphSound(m, k);
    FunctionText(k);
    EmittedUnambiguous(e.records);
    assert Placement(k, e, Full(f), FunctionOf(k));
    EmittedDeclares(e.records, FunctionOf(k));
    forall i | 0 <= i < |rs| ensures RecordGood(t, short, FunctionKey(k), rs, rs[i]) {
      assert rs[i] == Emitted(e.records[i]);
      RecordIsGood(t, short, m, k, e, e.records[i]);
    }
    GoodFromParts(t, short, FunctionKey(k), rs);
  }

  /** So in well-scoped tables they can replace the snapshot of that function. */
  lemma AdapterRecordsGood(t: Tables, short: string, m: Module, k: nat)
    requires TablesOk(t) && IsShort(short) && Catalogued(t, short, m)
    requires k < |m.functions| && WellFormed(m, m.functions[k])
    ensures Setting(t, short, FunctionKey(k), FunctionHandle(short, FunctionKey(k)), EmittedAll(Graph(m, k)))
  {
    hide Render, Scope, WellFormed, Graph, TablesOk, EntityId, GoodRecords, EmittedAll;
    AdapterRecordsFit(t, short, m, k);
    FunctionText(k);
  }

  /** The clauses of `GoodRecords` about one record. */
  ghost predicate RecordGood(t: Tables, short: string, key: string, rs: seq<Record<string>>, r: Record<string>) {
    match r
    case Entity(kind, local, _, _, _, _) =>
      InScope(key, local) && (ModuleScoped(kind) <==> Scope(local) == None)
    case Relation(kind, src, dst, _, _) =>
      && kind != "" && InScope(key, src) && InScope(key, dst)
      && (Declares(rs, src) || EntityId(short, src) in t.entities)
      && (Declares(rs, dst) || EntityId(short, dst) in t.entities)
      && (Scope(src).Some? ==> Declares(rs, src)) && (Scope(dst).Some? ==> Declares(rs, dst))
    case Source(entity, _, _) => Declares(rs, entity) && Scope(entity) == Some(key)
    case _ => true
  }

  lemma GoodFromParts(t: Tables, short: string, key: string, rs: seq<Record<string>>)
    requires Unambiguous(rs) && Declares(rs, "function:" + key)
    requires forall i :: 0 <= i < |rs| ==> RecordGood(t, short, key, rs, rs[i])
    ensures GoodRecords(t, short, key, rs)
  {
    hide Scope, InScope, EntityId, ModuleScoped, Unambiguous;
    forall r | r in rs ensures RecordGood(t, short, key, rs, r) {
      var i :| 0 <= i < |rs| && rs[i] == r;
    }
  }

  lemma KnownPlaced(t: Tables, short: string, m: Module, rs: seq<Record<Local>>, l: Local)
    requires Catalogued(t, short, m) && Known(m, rs, l)
    ensures Declares(EmittedAll(rs), Render(l)) || EntityId(short, Render(l)) in t.entities
  {
    hide Render, EntityId;
    EmittedDeclares(rs, l);
  }

  lemma RecordIsGood(t: Tables, short: string, m: Module, k: nat, e: Emission, r: Record<Local>)
    requires Catalogued(t, short, m) && k < |m.functions|
    requires Sound(m, m.functions[k], k, e, Full(m.functions[k])) && r in e.records
    ensures RecordGood(t, short, FunctionKey(k), EmittedAll(e.records), Emitted(r))
  {
    hide Render, Scope, Catalogued, EntityId, InScope, Unambiguous, Known, Declares, EmittedAll, Tabled, Holder;
    var i :| 0 <= i < |e.records| && e.records[i] == r;
    assert Fits(m, m.functions[k], k, e.records, r);
    match r {
      case Entity(kind, local, _, _, _, _) =>
        EntityKnown(m, e, r);
        KnownInScope(m, k, e, local);
        ScopeOfRender(local);
      case Relation(kind, src, dst, _, _) =>
        KnownInScope(m, k, e, src);
        KnownInScope(m, k, e, dst);
        KnownPlaced(t, short, m, e.records, src);
        KnownPlaced(t, short, m, e.records, dst);
        EmittedDeclares(e.records, src);
        EmittedDeclares(e.records, dst);
      case Source(entity, _, _) =>
        SourceInScope(m, k, e, entity);
        EmittedDeclares(e.records, entity);
      case _ =>
    }
  }

  lemma EntityKnown(m: Module, e: Emission, r: Record<Local>)
    requires r in e.records && r.Entity?
    ensures Known(m, e.records, r.local)
  {
    var i :| 0 <= i < |e.records| && e.records[i] == r;
    assert Declares(e.records, r.local);
  }

  /** Source rows are emitted for instructions only. */
  lemma SourceInScope(m: Module, k: nat, e: Emission, entity: Local)
    requires k < |m.functions| && Sound(m, m.functions[k], k, e, Full(m.functions[k]))
    requires Declares(e.records, entity) && entity.InstructionOf?
    ensures Scope(Render(entity)) == Some(FunctionKey(k))
  {
    hide Render, Scope, Fits, Tabled;
    ScopeOfRender(entity);
    assert Placement(k, e, Full(m.functions[k]), entity);
  }

  // ---- Guards of a materialized function ---------------------------------------------------------------------

  function HandleOf(short: string, l: Local): Handle {
    EntityId(short, Render(l))
  }

  function OwnHandle(short: string, k: nat): Handle {
    FunctionHandle(short, FunctionKey(k))
  }

  lemma OwnHandleText(short: string, k: nat)
    ensures OwnHandle(short, k) == EntityId(short, Render(FunctionOf(k)))
  {
    hide Render, EntityId;
    FunctionText(k);
  }

  /** Rows that leave the function's entities are its own, and its own rows lead to entities. */
  ghost predicate Scoped(t: Tables, f: Handle) {
    forall r :: r in t.relations ==>
      && (Owned(t.entities, f, r.src) ==> r.functionId == Some(f))
      && (r.functionId == Some(f) ==> r.dst in t.entities)
  }

  /** The tables hold the whole snapshot of function `k`, by one run. */
  ghost predicate SnapshotStored(t: Tables, short: string, m: Module, k: nat, run: string) {
    && IsShort(short) && k < |m.functions| && WellFormed(m, m.functions[k])
    && Complete(t, short, OwnHandle(short, k), EmittedAll(Graph(m, k)), run) && Scoped(t, OwnHandle(short, k))
  }

  lemma OkIsScoped(t: Tables, f: Handle)
    requires TablesOk(t)
    ensures Scoped(t, f)
  {
    hide RowOk;
    forall r | r in t.relations
      ensures (Owned(t.entities, f, r.src) ==> r.functionId == Some(f)) && (r.functionId == Some(f) ==> r.dst in t.entities)
    {
      assert RelationOk(t.entities, r);
    }
  }

  lemma {:induction false} InPartRelations(rows: seq<R.Relation>, a: string, r: R.Relation)
    ensures r in PartRelations(rows, a) <==> r in rows && RelationOf(r, a)
  {
    hide RelationOf;
    if rows != [] {
      InPartRelations(rows[..|rows| - 1], a, r);
      assert rows == rows[..|rows| - 1] + [rows[|rows| - 1]];
    }
  }

  lemma ScopedByPart(t: Tables, f: Handle)
    requires Separate(t) && Scoped(Part(t, Home(f)), f)
    ensures Scoped(t, f)
  {
    hide Home, PartEntities, SeparateEntities, Owned;
    forall r | r in t.relations
      ensures (Owned(t.entities, f, r.src) ==> r.functionId == Some(f)) && (r.functionId == Some(f) ==> r.dst in t.entities)
    {
      assert SeparateRelation(r);
      InPartRelations(t.relations, Home(f), r);
      OwnedPart(t.entities, f, r.src);
      PartWithin(t.entities, Home(f), r.dst);
    }
  }

  lemma PartWithin(es: map<Handle, EntityRow>, a: string, id: Handle)
    ensures id in PartEntities(es, a) ==> id in es
  {
  }

  /** A commit into well-scoped tables stores the snapshot. */
  lemma CommitStores(t: Tables, short: string, m: Module, k: nat, run: string)
    requires TablesOk(t) && IsShort(short) && Catalogued(t, short, m)
    requires k < |m.functions| && WellFormed(m, m.functions[k])
    ensures Replaced(t, short, OwnHandle(short, k), EmittedAll(Graph(m, k)), run).Ok?
    ensures SnapshotStored(After(t, short, OwnHandle(short, k), EmittedAll(Graph(m, k)), run), short, m, k, run)
  {
    hide Graph, WellFormed, TablesOk, Catalogued, Setting, Complete, Scoped, EmittedAll, Replaced, FunctionHandle, After,
         IsShort, Fitting;
    var h, rs := OwnHandle(short, k), EmittedAll(Graph(m, k));
    AdapterRecordsGood(t, short, m, k);
    SettingFits(t, short, FunctionKey(k), h, rs);
    AfterParts(t, short, FunctionKey(k), h, rs, run);
    CommitCompletes(t, short, FunctionKey(k), h, rs, run);
    TablesStayOk(t, short, FunctionKey(k), h, rs, run);
    OkIsScoped(After(t, short, h, rs, run), h);
  }

  /** The first block found to contain an instruction is the only one. */
  lemma {:induction false} BlockForUnique(rels: seq<Record<string>>, local: string, block: string)
    requires forall r :: r in rels ==> r.Relation?
    requires forall r :: r in rels && PlacesInBlock(r, local) ==> r.src == block
    requires exists r :: r in rels && PlacesInBlock(r, local)
    ensures BlockFor(rels, local) == Some(block)
  {
    hide PlacesInBlock;
    if PlacesInBlock(rels[0], local) {
      assert rels[0] in rels;
    } else {
      BlockForUnique(rels[1..], local, block);
    }
  }

  /** In the adapter's list every instruction is placed in its own block. */
  lemma BlockForInstruction(m: Module, k: nat, b: nat, i: nat)
    requires k < |m.functions| && WellFormed(m, m.functions[k])
    requires b < |m.functions[k].blocks| && i < |m.functions[k].blocks[b].instructions|
    ensures BlockFor(RelationsOf(EmittedAll(Graph(m, k))), Render(InstructionOf(k, Base(m.functions[k].blocks, b) + i))) ==
            Some(Render(BlockOf(k, b)))
  {
    hide Graph, WellFormed, Base, Holder, Render, EmittedAll, RelationsOf, PlacesInBlock, BlockFor;
    var f := m.functions[k];
    var n := Base(f.blocks, b) + i;
    var rels, local := RelationsOf(EmittedAll(Graph(m, k))), Render(InstructionOf(k, n));
    InstructionOrdinal(f, b, i);
    forall r | r in rels && PlacesInBlock(r, local) ensures r.src == Render(BlockOf(k, b)) {
      PlacedOnce(m, k, n, r);
    }
    ContainsEmitted(m, k, b, i);
    BlockForUnique(rels, local, Render(BlockOf(k, b)));
  }

  lemma PlacedOnce(m: Module, k: nat, n: nat, r: Record<string>)
    requires k < |m.functions| && WellFormed(m, m.functions[k])
    requires r in RelationsOf(EmittedAll(Graph(m, k))) && PlacesInBlock(r, Render(InstructionOf(k, n)))
    ensures r.src == Render(BlockOf(k, Holder(m.functions[k].blocks, n, 0)))
  {
    hide Graph, WellFormed, Holder, Render, Structure, Known, Declares, StartsWithBlock;
    var graph := Graph(m, k);
    var out := EmittedAll(graph);
    var j :| 0 <= j < |out| && out[j] == r;
    assert r == Emitted(graph[j]);
    GraphSound(m, k);
    assert Fits(m, m.functions[k], k, Whole(m, k).records, graph[j]) by {
      WholeFits(m, k, j);
    }
    RenderInjective(graph[j].dst, InstructionOf(k, n));
  }

  lemma WholeFits(m: Module, k: nat, j: nat)
    requires k < |m.functions| && WellFormed(m, m.functions[k]) && j < |Graph(m, k)|
    ensures Fits(m, m.functions[k], k, Whole(m, k).records, Graph(m, k)[j])
  {
    hide Graph, WellFormed, Structure, Fits, Full, Tabled, Unambiguous, Placement;
    GraphSound(m, k);
  }

  lemma ContainsEmitted(m: Module, k: nat, b: nat, i: nat)
    requires k < |m.functions| && WellFormed(m, m.functions[k])
    requires b < |m.functions[k].blocks| && i < |m.functions[k].blocks[b].instructions|
    ensures exists r :: r in RelationsOf(EmittedAll(Graph(m, k))) &&
                        PlacesInBlock(r, Render(InstructionOf(k, Base(m.functions[k].blocks, b) + i)))
  {
    hide Graph, WellFormed, Base, Render, RelationsOf, StartsWithBlock;
    var f, graph := m.functions[k], Graph(m, k);
    var c := Contains(BlockOf(k, b), InstructionOf(k, Base(f.blocks, b) + i));
    ContainsInGraph(m, k, b, i);
    var j :| 0 <= j < |graph| && graph[j] == c;
    var r := EmittedAll(graph)[j];
    assert r == Emitted(c);
    assert r in EmittedAll(graph);
    BlockText(k, b);
    assert r in RelationsOf(EmittedAll(graph));
  }

  lemma BlockText(k: nat, b: nat)
    ensures StartsWithBlock(Render(BlockOf(k, b)))
  {
    hide Body;
    assert Render(BlockOf(k, b)) == "block" + ":" + Body(BlockOf(k, b));
    assert "block" + ":" == "block:";
  }

  lemma ContainsInGraph(m: Module, k: nat, b: nat, i: nat)
    requires k < |m.functions| && WellFormed(m, m.functions[k])
    requires b < |m.functions[k].blocks| && i < |m.functions[k].blocks[b].instructions|
    ensures Contains(BlockOf(k, b), InstructionOf(k, Base(m.functions[k].blocks, b) + i)) in Graph(m, k)
  {
    hide Base, Structure, CD.Dependences, DependenceInRange, Contains;
    StructureContains(m, k);
    assert Holds(m.functions[k], k, b, i, Structure(m, k).records);
  }

  /** A declared instruction is emitted with its kind. */
  lemma InstructionEmitted(m: Module, k: nat, n: nat) returns (j: nat)
    requires k < |m.functions| && WellFormed(m, m.functions[k]) && n < Full(m.functions[k]).instructions
    ensures var ents := EntitiesOf(EmittedAll(Graph(m, k)));
            j < |ents| && ents[j].Entity? && ents[j].local == Render(InstructionOf(k, n)) && ents[j].kind == "instruction"
  {
    hide Graph, WellFormed, Structure, Render, Full, Tabled, Unambiguous, Holder, Known;
    var graph := Graph(m, k);
    GraphSound(m, k);
    assert Placement(k, Whole(m, k), Full(m.functions[k]), InstructionOf(k, n));
    assert Declares(graph, InstructionOf(k, n));
    EmittedDeclares(graph, InstructionOf(k, n));
    j := DeclaredRecord(EmittedAll(graph), Render(InstructionOf(k, n)));
    var r := EntitiesOf(EmittedAll(graph))[j];
    assert r in EntitiesOf(EmittedAll(graph)) && r in EmittedAll(graph);
    var i :| 0 <= i < |graph| && EmittedAll(graph)[i] == r;
    WholeFits(m, k, i);
    RenderInjective(graph[i].local, InstructionOf(k, n));
  }

  lemma InnerAt(t: Tables, short: string, f: Handle, rs: seq<Record<string>>, i: int)
    requires OwnsExactly(t.entities, short, f, rs) && IsInner(EntitiesOf(rs), i)
    ensures var id := EntityId(short, EntitiesOf(rs)[i].local);
            && id in t.entities && t.entities[id] == InnerRow(short, f, RelationsOf(rs), EntitiesOf(rs)[i])
  {
    hide EntityId, EntitiesOf, RelationsOf, InnerRow, Owned, InnerId;
  }

  /** An instruction is answered for the block that holds it, and exactly. */
  lemma InstructionAnswered(t: Tables, short: string, m: Module, k: nat, run: string, b: nat, i: nat)
    requires SnapshotStored(t, short, m, k, run)
    requires b < |m.functions[k].blocks| && i < |m.functions[k].blocks[b].instructions|
    ensures var h := HandleOf(short, InstructionOf(k, Base(m.functions[k].blocks, b) + i));
            && h in t.entities
            && G.GuardedBlock(t, h) == HandleOf(short, BlockOf(k, b))
            && G.DependenceKnown(t, h)
  {
    hide Graph, WellFormed, Base, EntityId, Render, EmittedAll, EntitiesOf, OwnsExactly, RelationsOf, FunctionHandle,
         Full, Scoped, RowsOf, SourcesIn, BlockFor;
    var f, rs, fh := m.functions[k], EmittedAll(Graph(m, k)), OwnHandle(short, k);
    var n := Base(f.blocks, b) + i;
    InstructionOrdinal(f, b, i);
    var j := InstructionEmitted(m, k, n);
    InnerAt(t, short, fh, rs, j);
    BlockForInstruction(m, k, b, i);
  }

  // ---- The dependence rows -----------------------------------------------------------------------------------

  /** The row that a control dependence of function `k` is stored as. */
  function DependenceRow(short: string, m: Module, k: nat, run: string, d: CD.Dependence): R.Relation
    requires k < |m.functions| && DependenceInRange(m.functions[k], d)
  {
    RelationRow(short, OwnHandle(short, k), run, Emitted(DependenceRecord(m.functions[k], k, d)))
  }

  /** `d` is a control dependence of block `b` in the function's graph. */
  ghost predicate DependsOf(m: Module, k: nat, b: nat, d: CD.Dependence)
    requires k < |m.functions|
  {
    CD.Depends(CfgOf(m.functions[k]), d) && d.block == b && DependenceInRange(m.functions[k], d)
  }

  /** An emitted dependence record is a record of a dependence in the graph. */
  lemma DependenceRecordBack(m: Module, k: nat, rel: Record<string>)
    requires k < |m.functions| && WellFormed(m, m.functions[k])
    requires rel in RelationsOf(EmittedAll(Graph(m, k))) && rel.kind == CONTROL_DEPENDENCE
    ensures exists d :: CD.Depends(CfgOf(m.functions[k]), d) && DependenceInRange(m.functions[k], d) &&
                        rel == Emitted(DependenceRecord(m.functions[k], k, d))
  {
    hide Graph, WellFormed, CD.Depends, DependenceInRange, DependenceRecord, Render;
    var graph := Graph(m, k);
    assert rel in EmittedAll(graph);
    var j :| 0 <= j < |graph| && EmittedAll(graph)[j] == rel;
    DependenceRecordsExact(m, k, graph[j]);
  }

  lemma DependenceRecordForth(m: Module, k: nat, d: CD.Dependence)
    requires k < |m.functions| && WellFormed(m, m.functions[k])
    requires CD.Depends(CfgOf(m.functions[k]), d) && DependenceInRange(m.functions[k], d)
    ensures Emitted(DependenceRecord(m.functions[k], k, d)) in RelationsOf(EmittedAll(Graph(m, k)))
  {
    hide Graph, WellFormed, CD.Depends, DependenceInRange, Render;
    var graph, r := Graph(m, k), DependenceRecord(m.functions[k], k, d);
    DependenceRecordsExact(m, k, r);
    var j :| 0 <= j < |graph| && graph[j] == r;
    assert EmittedAll(graph)[j] == Emitted(r);
    assert Emitted(r) in EmittedAll(graph);
  }

  /** A block is one of the function's entities. */
  lemma BlockOwned(t: Tables, short: string, m: Module, k: nat, run: string, b: nat)
    requires SnapshotStored(t, short, m, k, run) && b < |m.functions[k].blocks|
    ensures Owned(t.entities, OwnHandle(short, k), HandleOf(short, BlockOf(k, b)))
  {
    hide Graph, WellFormed, EntityId, Render, EmittedAll, EntitiesOf, RelationsOf, FunctionHandle, Scoped, RowsOf, SourcesIn,
         Owned, InnerRow;
    var j := BlockEmitted(m, k, b);
    assert IsInner(EntitiesOf(EmittedAll(Graph(m, k))), j);
    assert InnerId(short, EmittedAll(Graph(m, k)), HandleOf(short, BlockOf(k, b)));
  }

  /** A row of the function is one of the snapshot's. */
  lemma StoredRow(t: Tables, short: string, m: Module, k: nat, run: string, r: R.Relation)
    requires SnapshotStored(t, short, m, k, run) && r.functionId == Some(OwnHandle(short, k))
    ensures r in t.relations <==> r in RelationRows(short, OwnHandle(short, k), run, RelationsOf(EmittedAll(Graph(m, k))))
  {
    hide Graph, WellFormed, EmittedAll, RelationsOf, FunctionHandle, Scoped, RowsOf, SourcesIn, OwnsExactly, RelationRows;
    RowsOfAt(OwnHandle(short, k), t.relations, r);
  }

  /** The guards stored for block `b` are exactly the rows of its control dependences. */
  lemma GuardRowsExact(t: Tables, short: string, m: Module, k: nat, run: string, b: nat, r: R.Relation)
    requires SnapshotStored(t, short, m, k, run) && b < |m.functions[k].blocks|
    ensures r in G.AllGuards(t, true, HandleOf(short, BlockOf(k, b))) <==>
            exists d :: DependsOf(m, k, b, d) && r == DependenceRow(short, m, k, run, d)
  {
    hide Graph, EntityId, Render, EmittedAll, WellFormed, FunctionHandle, RelationsOf, DependenceRecord, CD.Depends,
         G.AllGuards, Complete, Owned;
    if r in G.AllGuards(t, true, HandleOf(short, BlockOf(k, b))) {
      BlockOwned(t, short, m, k, run, b);
      StoredRow(t, short, m, k, run, r);
      GuardRowBack(short, m, k, run, b, r);
    }
    if d :| DependsOf(m, k, b, d) && r == DependenceRow(short, m, k, run, d) {
      GuardRowForth(short, m, k, run, b, d);
      StoredRow(t, short, m, k, run, r);
    }
  }

  lemma GuardRowBack(short: string, m: Module, k: nat, run: string, b: nat, r: R.Relation)
    requires IsShort(short) && k < |m.functions| && WellFormed(m, m.functions[k])
    requires r in RelationRows(short, OwnHandle(short, k), run, RelationsOf(EmittedAll(Graph(m, k))))
    requires r.kind == CONTROL_DEPENDENCE && r.src == HandleOf(short, BlockOf(k, b))
    ensures exists d :: DependsOf(m, k, b, d) && r == DependenceRow(short, m, k, run, d)
  {
    hide Graph, EntityId, Render, EmittedAll, WellFormed, FunctionHandle, RelationsOf, DependenceRecord, CD.Depends,
         DependenceInRange;
    var rels := RelationsOf(EmittedAll(Graph(m, k)));
    var i :| 0 <= i < |rels| && RelationRows(short, OwnHandle(short, k), run, rels)[i] == r;
    assert rels[i] in rels;
    DependenceRecordBack(m, k, rels[i]);
    var d :| CD.Depends(CfgOf(m.functions[k]), d) && DependenceInRange(m.functions[k], d) &&
             rels[i] == Emitted(DependenceRecord(m.functions[k], k, d));
    DependenceEnds(m, k, d);
    HandleInjective(short, BlockOf(k, d.block), short, BlockOf(k, b));
    assert DependsOf(m, k, b, d);
  }

  lemma GuardRowForth(short: string, m: Module, k: nat, run: string, b: nat, d: CD.Dependence)
    requires k < |m.functions| && WellFormed(m, m.functions[k]) && DependsOf(m, k, b, d)
    ensures var r := DependenceRow(short, m, k, run, d);
            && r in RelationRows(short, OwnHandle(short, k), run, RelationsOf(EmittedAll(Graph(m, k))))
            && r.kind == CONTROL_DEPENDENCE && r.src == HandleOf(short, BlockOf(k, b))
            && r.functionId == Some(OwnHandle(short, k))
  {
    hide Graph, EntityId, Render, EmittedAll, WellFormed, FunctionHandle, RelationsOf, DependenceRecord, CD.Depends,
         DependenceInRange;
    var rels := RelationsOf(EmittedAll(Graph(m, k)));
    DependenceRecordForth(m, k, d);
    var rel := Emitted(DependenceRecord(m.functions[k], k, d));
    var i :| 0 <= i < |rels| && rels[i] == rel;
    assert RelationRows(short, OwnHandle(short, k), run, rels)[i] == DependenceRow(short, m, k, run, d);
    DependenceEnds(m, k, d);
  }

  lemma DependenceEnds(m: Module, k: nat, d: CD.Dependence)
    requires k < |m.functions| && DependenceInRange(m.functions[k], d)
    ensures var r := DependenceRecord(m.functions[k], k, d);
            && r.Relation? && r.kind == CONTROL_DEPENDENCE && r.src == BlockOf(k, d.block)
            && r.dst == InstructionOf(k, Terminator(m.functions[k], d.branch)) && r.ordinal == Some(d.ordinal)
  {
  }

  // ---- Each guard once ---------------------------------------------------------------------------------------

  lemma {:induction false} AtMostOnce<T>(s: seq<T>, x: T)
    requires forall i, j :: 0 <= i < j < |s| ==> s[i] != x || s[j] != x
    ensures multiset(s)[x] <= 1
  {
    if s != [] {
      var init, last := s[..|s| - 1], s[|s| - 1];
      assert s == init + [last];
      AtMostOnce(init, x);
      if last == x {
        forall i | 0 <= i < |init| ensures init[i] != x {
          assert s[i] == init[i] && s[|s| - 1] == last;
        }
        assert x !in init;
      }
    }
  }

  /** The dependence records of the emitted list are pairwise different. */
  lemma {:induction false} RelationsDistinct(rs: seq<Record<string>>, x: Record<string>)
    requires forall i, j :: 0 <= i < j < |rs| ==> rs[i] != x || rs[j] != x
    ensures multiset(RelationsOf(rs))[x] <= 1
  {
    AtMostOnce(rs, x);
    RelationsFewer(rs, x);
  }

  lemma {:induction false} RelationsFewer(rs: seq<Record<string>>, x: Record<string>)
    ensures multiset(RelationsOf(rs))[x] <= multiset(rs)[x]
  {
    if rs != [] {
      RelationsFewer(rs[..|rs| - 1], x);
      assert rs == rs[..|rs| - 1] + [rs[|rs| - 1]];
    }
  }

  lemma DependenceEmittedOnce(m: Module, k: nat, d: CD.Dependence)
    requires k < |m.functions| && WellFormed(m, m.functions[k])
    requires DependenceInRange(m.functions[k], d)
    ensures multiset(RelationsOf(EmittedAll(Graph(m, k))))[Emitted(DependenceRecord(m.functions[k], k, d))] <= 1
  {
    hide Graph, WellFormed, Render, DependenceInRange, RelationsOf;
    var graph, x := Graph(m, k), Emitted(DependenceRecord(m.functions[k], k, d));
    var rs := EmittedAll(graph);
    forall i, j | 0 <= i < j < |rs| ensures rs[i] != x || rs[j] != x {
      if rs[i] == x && rs[j] == x {
        EmittedBack(graph[i], m, k, d);
        EmittedBack(graph[j], m, k, d);
        DependenceRecordsOnce(m, k, i, j);
      }
    }
    RelationsDistinct(rs, x);
  }

  lemma EmittedBack(r: Record<Local>, m: Module, k: nat, d: CD.Dependence)
    requires k < |m.functions| && DependenceInRange(m.functions[k], d)
    requires Emitted(r) == Emitted(DependenceRecord(m.functions[k], k, d))
    ensures IsDependence(r) && r == DependenceRecord(m.functions[k], k, d)
  {
    hide Render, DependenceInRange, Terminator;
    var x := DependenceRecord(m.functions[k], k, d);
    RenderInjective(r.src, x.src);
    RenderInjective(r.dst, x.dst);
  }

  lemma {:induction false} CountMapped<A, B>(a: seq<A>, b: seq<B>, x: A, y: B)
    requires |a| == |b| && forall i :: 0 <= i < |a| ==> (a[i] == x <==> b[i] == y)
    ensures multiset(a)[x] == multiset(b)[y]
  {
    if a != [] {
      var n := |a| - 1;
      CountMapped(a[..n], b[..n], x, y);
      assert a == a[..n] + [a[n]] && b == b[..n] + [b[n]];
    }
  }

  lemma {:induction false} GuardRowsFewer(es: map<Handle, EntityRow>, exact: bool, block: Handle,
                                          rows: seq<R.Relation>, r: R.Relation)
    ensures multiset(G.GuardRows(es, exact, block, rows))[r] <= multiset(rows)[r]
  {
    if rows != [] {
      GuardRowsFewer(es, exact, block, rows[..|rows| - 1], r);
      assert rows == rows[..|rows| - 1] + [rows[|rows| - 1]];
    }
  }

  /** A stored row tells which dependence it stands for. */
  lemma RowTellsRecord(short: string, m: Module, k: nat, run: string, rel: Record<string>, d: CD.Dependence)
    requires IsShort(short) && k < |m.functions| && WellFormed(m, m.functions[k])
    requires DependenceInRange(m.functions[k], d) && rel in RelationsOf(EmittedAll(Graph(m, k)))
    requires RelationRow(short, OwnHandle(short, k), run, rel) == DependenceRow(short, m, k, run, d)
    ensures rel == Emitted(DependenceRecord(m.functions[k], k, d))
  {
    hide Graph, EntityId, Render, EmittedAll, WellFormed, FunctionHandle, RelationsOf, DependenceRecord, CD.Depends,
         DependenceInRange;
    var f := m.functions[k];
    DependenceEnds(m, k, d);
    DependenceRecordBack(m, k, rel);
    var c :| CD.Depends(CfgOf(f), c) && DependenceInRange(f, c) && rel == Emitted(DependenceRecord(f, k, c));
    DependenceEnds(m, k, c);
    var a, b := DependenceRecord(f, k, c), DependenceRecord(f, k, d);
    HandleInjective(short, a.src, short, b.src);
    HandleInjective(short, a.dst, short, b.dst);
    if c != d {
      DependenceRecordInjective(f, k, c, d);
    }
  }

  /** Each guard is stored once. */
  lemma GuardRowOnce(t: Tables, short: string, m: Module, k: nat, run: string, b: nat, d: CD.Dependence)
    requires SnapshotStored(t, short, m, k, run) && DependenceInRange(m.functions[k], d)
    ensures multiset(G.AllGuards(t, true, HandleOf(short, BlockOf(k, b))))[DependenceRow(short, m, k, run, d)] <= 1
  {
    hide Graph, EntityId, Render, EmittedAll, WellFormed, FunctionHandle, RelationsOf, DependenceRecord, DependenceInRange,
         Scoped, OwnsExactly, SourcesIn, RowsOf, G.GuardRows;
    var fh, r := OwnHandle(short, k), DependenceRow(short, m, k, run, d);
    GuardRowsFewer(t.entities, true, HandleOf(short, BlockOf(k, b)), t.relations, r);
    RowsOfCount(fh, t.relations, r);
    SnapshotRowOnce(short, m, k, run, d);
  }

  lemma {:induction false} RowsOfCount(f: Handle, rows: seq<R.Relation>, r: R.Relation)
    requires r.functionId == Some(f)
    ensures multiset(RowsOf(f, rows))[r] == multiset(rows)[r]
  {
    if rows != [] {
      RowsOfCount(f, rows[..|rows| - 1], r);
      assert rows == rows[..|rows| - 1] + [rows[|rows| - 1]];
    }
  }

  lemma SnapshotRowOnce(short: string, m: Module, k: nat, run: string, d: CD.Dependence)
    requires IsShort(short) && k < |m.functions| && WellFormed(m, m.functions[k]) && DependenceInRange(m.functions[k], d)
    ensures multiset(RelationRows(short, OwnHandle(short, k), run, RelationsOf(EmittedAll(Graph(m, k)))))
              [DependenceRow(short, m, k, run, d)] <= 1
  {
    hide Graph, EntityId, Render, EmittedAll, WellFormed, FunctionHandle, RelationsOf, DependenceRecord, DependenceInRange;
    var rels, x := RelationsOf(EmittedAll(Graph(m, k))), Emitted(DependenceRecord(m.functions[k], k, d));
    var rows, r := RelationRows(short, OwnHandle(short, k), run, rels), DependenceRow(short, m, k, run, d);
    forall i | 0 <= i < |rows| ensures rows[i] == r <==> rels[i] == x {
      assert rels[i] in rels;
      if rows[i] == r {
        RowTellsRecord(short, m, k, run, rels[i], d);
      }
    }
    CountMapped(rows, rels, r, x);
    DependenceEmittedOnce(m, k, d);
  }

  /**
   * The guards of instruction `i` of block `b` are the control dependences of that block, each listed once, ordered by
   * terminator and successor ordinal.
   */
  ghost predicate GuardsExact(t: Tables, short: string, m: Module, k: nat, run: string, b: nat, i: nat)
    requires k < |m.functions| && b < |m.functions[k].blocks|
  {
    var h := HandleOf(short, InstructionOf(k, Base(m.functions[k].blocks, b) + i));
    && h in t.entities && G.DependenceKnown(t, h)
    && var all := G.AllGuards(t, G.DependenceKnown(t, h), G.GuardedBlock(t, h));
    && (forall r :: r in all <==> exists d :: DependsOf(m, k, b, d) && r == DependenceRow(short, m, k, run, d))
    && (forall r :: r in all ==> multiset(all)[r] == 1)
    && R.Sorted(R.ByDst, all)
  }

  /** End to end: whenever the snapshot of function `k` is stored, the guards of its instructions are exact. */
  lemma GuardsAreControlDependences(t: Tables, short: string, m: Module, k: nat, run: string, b: nat, i: nat)
    requires SnapshotStored(t, short, m, k, run)
    requires b < |m.functions[k].blocks| && i < |m.functions[k].blocks[b].instructions|
    ensures GuardsExact(t, short, m, k, run, b, i)
  {
    hide Base, SnapshotStored, EntityId, Render, G.AllGuards, G.DependenceKnown, G.GuardedBlock, DependsOf, DependenceRow,
         R.Sorted;
    InstructionAnswered(t, short, m, k, run, b, i);
    BlockGuards(t, short, m, k, run, b);
  }

  /** The guards of a block, listed once each and in order. */
  lemma BlockGuards(t: Tables, short: string, m: Module, k: nat, run: string, b: nat)
    requires SnapshotStored(t, short, m, k, run) && b < |m.functions[k].blocks|
    ensures var all := G.AllGuards(t, true, HandleOf(short, BlockOf(k, b)));
            && (forall r :: r in all <==> exists d :: DependsOf(m, k, b, d) && r == DependenceRow(short, m, k, run, d))
            && (forall r :: r in all ==> multiset(all)[r] == 1)
            && R.Sorted(R.ByDst, all)
  {
    hide Graph, EntityId, Render, EmittedAll, WellFormed, FunctionHandle, CD.Depends, DependenceInRange, SnapshotStored,
         G.AllGuards, R.Sorted, DependenceRow;
    StoredFunction(t, short, m, k, run);
    var bh := HandleOf(short, BlockOf(k, b));
    var all := G.AllGuards(t, true, bh);
    forall r ensures r in all <==> exists d :: DependsOf(m, k, b, d) && r == DependenceRow(short, m, k, run, d) {
      GuardRowsExact(t, short, m, k, run, b, r);
    }
    forall r | r in all ensures multiset(all)[r] == 1 {
      var d :| DependsOf(m, k, b, d) && r == DependenceRow(short, m, k, run, d);
      GuardRowOnce(t, short, m, k, run, b, d);
    }
    GuardsSorted(t, bh);
  }

  lemma GuardsSorted(t: Tables, block: Handle)
    ensures R.Sorted(R.ByDst, G.AllGuards(t, true, block))
  {
    hide R.Sorted, R.Sort, G.GuardRows;
    R.SortSorted(R.ByDst, G.GuardRows(t.entities, true, block, t.relations));
  }

  lemma StoredFunction(t: Tables, short: string, m: Module, k: nat, run: string)
    requires SnapshotStored(t, short, m, k, run)
    ensures IsShort(short) && k < |m.functions| && WellFormed(m, m.functions[k])
  {
    hide Complete, Scoped, WellFormed, Graph;
  }

  lemma BlockEmitted(m: Module, k: nat, b: nat) returns (j: nat)
    requires k < |m.functions| && WellFormed(m, m.functions[k]) && b < |m.functions[k].blocks|
    ensures var ents := EntitiesOf(EmittedAll(Graph(m, k)));
            j < |ents| && ents[j].Entity? && ents[j].local == Render(BlockOf(k, b)) && ents[j].kind == "basic_block"
  {
    hide Graph, WellFormed, Structure, Render, Tabled, Unambiguous, Holder, Known;
    var graph := Graph(m, k);
    GraphSound(m, k);
    assert Placement(k, Whole(m, k), Full(m.functions[k]), BlockOf(k, b));
    assert Declares(graph, BlockOf(k, b));
    EmittedDeclares(graph, BlockOf(k, b));
    j := DeclaredRecord(EmittedAll(graph), Render(BlockOf(k, b)));
    var r := EntitiesOf(EmittedAll(graph))[j];
    assert r in EntitiesOf(EmittedAll(graph)) && r in EmittedAll(graph);
    var i :| 0 <= i < |graph| && EmittedAll(graph)[i] == r;
    WholeFits(m, k, i);
    RenderInjective(graph[i].local, BlockOf(k, b));
  }
}
