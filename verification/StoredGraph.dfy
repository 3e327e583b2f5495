/** What the tables hold of a stored function, column by column, told from the module alone. */
module StoredGraph {
  import opened Wrappers
  import opened Keys
  import opened Records
  import opened Adapter
  import opened AdapterProperties
  import opened AdapterSites
  import opened AdapterRecords
  import opened Snapshot
  import opened SnapshotProperties
  import opened SnapshotTheorems
  import opened SnapshotContent
  import opened EndToEnd
  import opened GuardAnswers
  import R = Relations
  import CD = ControlDependence

  /** The record of a place is an entity inside the function. */
  ghost predicate DeclaresInside(f: Function, s: Site) {
    Valid(f, s) && (s.Argument? || s.Block? || s.Instr? || NewConstant(f, s))
  }

  /** The key under which a place declares an entity. */
  function KeyAt(m: Module, f: Function, k: nat, table: map<Operand, Local>, s: Site): Local
  {
    match s
    case Argument(a) => ArgumentOf(k, a)
    case Block(b) => BlockOf(k, b)
    case Instr(b, i) => if IsInstr(f, b, i) then InstrKey(f, k, b, i) else FunctionOf(k)
    case FirstUse(b, i, o) => if IsOperand(f, b, i, o) then NameOf(k, table, OperandAt(f, b, i, o)) else FunctionOf(k)
    case _ => FunctionOf(k)
  }

  /** The row of a relation record, column by column. */
  function RowOf(short: string, k: nat, run: string, r: Record<Local>): R.Relation
    requires r.Relation?
  {
    R.Relation(Some(OwnHandle(short, k)), HandleOf(short, r.src), HandleOf(short, r.dst), r.kind, r.ordinal, run,
               r.attributes)
  }

  /** What is emitted for a record of the list is in the emitted list, and nothing else. */
  lemma InEmitted(graph: seq<Record<Local>>, x: Record<string>)
    ensures x in EmittedAll(graph) <==> exists g :: g in graph && x == Emitted(g)
  {
    hide Render;
    var out := EmittedAll(graph);
    if x in out {
      var i :| 0 <= i < |out| && out[i] == x;
      assert graph[i] in graph;
    }
    if g :| g in graph && x == Emitted(g) {
      var i :| 0 <= i < |graph| && graph[i] == g;
      assert out[i] == x;
    }
  }

  lemma RowEmitted(short: string, k: nat, run: string, g: Record<Local>)
    requires g.Relation?
    ensures Emitted(g).Relation? && RelationRow(short, OwnHandle(short, k), run, Emitted(g)) == RowOf(short, k, run, g)
  {
    hide EntityId, Render, FunctionHandle;
  }

  lemma InRows(short: string, k: nat, run: string, rels: seq<Record<string>>, r: R.Relation)
    requires forall x :: x in rels ==> x.Relation?
    ensures r in RelationRows(short, OwnHandle(short, k), run, rels) <==>
            exists x :: x in rels && r == RelationRow(short, OwnHandle(short, k), run, x)
  {
    hide RelationRow, FunctionHandle;
    var rows := RelationRows(short, OwnHandle(short, k), run, rels);
    if r in rows {
      var i :| 0 <= i < |rows| && rows[i] == r;
      assert rels[i] in rels;
    }
    if x :| x in rels && r == RelationRow(short, OwnHandle(short, k), run, x) {
      var i :| 0 <= i < |rels| && rels[i] == x;
      assert rows[i] == r;
    }
  }

  /** The function's relation rows are those of the places of the function, and its guards. */
  lemma StoredRelations(t: Tables, short: string, m: Module, k: nat, run: string, r: R.Relation)
    requires SnapshotStored(t, short, m, k, run) && r.functionId == Some(OwnHandle(short, k))
    ensures var f := m.functions[k];
            r in t.relations <==>
            || (exists s :: Valid(f, s) && RecordAt(m, f, k, TableOf(m, k), s).Relation? &&
                            r == RowOf(short, k, run, RecordAt(m, f, k, TableOf(m, k), s)))
            || (exists d :: CD.Depends(CfgOf(f), d) && DependenceInRange(f, d) && r == GuardRow(short, m, k, run, d))
  {
    hide SnapshotStored, Graph, WellFormed, EmittedAll, Emitted, RelationsOf, RelationRows, OwnHandle, RowOf, Valid, RecordAt,
         CD.Depends, DependenceInRange, GuardRow, Structure, DependenceAt;
    StoredFunction(t, short, m, k, run);
    var f, graph := m.functions[k], Graph(m, k);
    StoredRow(t, short, m, k, run, r);
    StoredRecord(t, short, m, k, run, r);
    if g :| g in graph && g.Relation? && r == RowOf(short, k, run, g) {
      GraphExact(m, k, g);
      if d :| CD.Depends(CfgOf(f), d) && DependenceInRange(f, d) && g == DependenceAt(f, k, d) {
        GuardRowOfRecord(short, m, k, run, d);
      }
    }
    if s :| Valid(f, s) && RecordAt(m, f, k, TableOf(m, k), s).Relation? &&
            r == RowOf(short, k, run, RecordAt(m, f, k, TableOf(m, k), s))
    {
      GraphExact(m, k, RecordAt(m, f, k, TableOf(m, k), s));
    }
    if d :| CD.Depends(CfgOf(f), d) && DependenceInRange(f, d) && r == GuardRow(short, m, k, run, d) {
      GraphExact(m, k, DependenceAt(f, k, d));
      GuardRowOfRecord(short, m, k, run, d);
    }
  }

  lemma GuardRowOfRecord(short: string, m: Module, k: nat, run: string, d: CD.Dependence)
    requires k < |m.functions| && DependenceInRange(m.functions[k], d)
    ensures DependenceAt(m.functions[k], k, d).Relation?
    ensures RowOf(short, k, run, DependenceAt(m.functions[k], k, d)) == GuardRow(short, m, k, run, d)
  {
    hide OwnHandle, EntityId, Render, Base;
  }

  lemma StoredRecord(t: Tables, short: string, m: Module, k: nat, run: string, r: R.Relation)
    requires SnapshotStored(t, short, m, k, run) && r.functionId == Some(OwnHandle(short, k))
    ensures r in t.relations <==> exists g :: g in Graph(m, k) && g.Relation? && r == RowOf(short, k, run, g)
  {
    hide SnapshotStored, Graph, WellFormed, EmittedAll, Emitted, RelationsOf, RelationRows, OwnHandle, RowOf, RelationRow;
    StoredFunction(t, short, m, k, run);
    StoredRow(t, short, m, k, run, r);
    var graph, rels := Graph(m, k), RelationsOf(EmittedAll(Graph(m, k)));
    InRows(short, k, run, rels, r);
    if x :| x in rels && r == RelationRow(short, OwnHandle(short, k), run, x) {
      InEmitted(graph, x);
      var g :| g in graph && x == Emitted(g);
      EmittedRelation(g);
      RowEmitted(short, k, run, g);
    }
    if g :| g in graph && g.Relation? && r == RowOf(short, k, run, g) {
      RowEmitted(short, k, run, g);
      InEmitted(graph, Emitted(g));
    }
  }

  lemma EmittedRelation(g: Record<Local>)
    ensures Emitted(g).Relation? <==> g.Relation?
    ensures Emitted(g).Source? <==> g.Source?
    ensures Emitted(g).Entity? <==> g.Entity?
  {
    hide Render;
  }

  // ---- Sources -----------------------------------------------------------------------------------------------

  lemma SourceEmitted(g: Record<Local>, x: Record<string>)
    requires x == Emitted(g) && g.Source?
    ensures x == Source(Render(g.entity), g.inlineDepth, g.place)
  {
    hide Render;
  }

  lemma InSourceRows(short: string, run: string, srcs: seq<Record<string>>, y: SourceRow)
    requires forall x :: x in srcs ==> x.Source?
    ensures y in SourceRows(short, run, srcs) <==>
            exists x :: x in srcs && y == SourceRow(EntityId(short, x.entity), x.inlineDepth, x.place, run)
  {
    hide EntityId;
    var rows := SourceRows(short, run, srcs);
    if y in rows {
      var i :| 0 <= i < |rows| && rows[i] == y;
      assert srcs[i] in srcs;
    }
    if x :| x in srcs && y == SourceRow(EntityId(short, x.entity), x.inlineDepth, x.place, run) {
      var i :| 0 <= i < |srcs| && srcs[i] == x;
      assert rows[i] == y;
    }
  }

  /** The source row of a place of an instruction. */
  function PlaceRow(short: string, f: Function, k: nat, run: string, b: nat, i: nat, d: nat): SourceRow
    requires IsInstr(f, b, i) && d < |f.blocks[b].instructions[i].places|
  {
    SourceRow(HandleOf(short, InstructionOf(k, Base(f.blocks, b) + i)), d, f.blocks[b].instructions[i].places[d], run)
  }

  /** The function's source rows are those of its instructions, each with its depth. */
  lemma StoredSources(t: Tables, short: string, m: Module, k: nat, run: string, y: SourceRow)
    requires SnapshotStored(t, short, m, k, run)
    ensures var f := m.functions[k];
            y in SourcesIn(t.entities, OwnHandle(short, k), t.sources) <==>
            exists b: nat, i: nat, d: nat ::
              IsInstr(f, b, i) && d < |f.blocks[b].instructions[i].places| && y == PlaceRow(short, f, k, run, b, i, d)
  {
    hide Graph, WellFormed, EmittedAll, Emitted, SourcesOf, SourceRows, OwnHandle, Valid, RecordAt, CD.Depends, EntityId,
         DependenceInRange, Structure, DependenceAt, PlaceRow, SourcesIn, RowsOf, OwnsExactly, CertifiedBy, Scoped, Render;
    var f, graph, srcs := m.functions[k], Graph(m, k), SourcesOf(EmittedAll(Graph(m, k)));
    InSourceRows(short, run, srcs, y);
    if x :| x in srcs && y == SourceRow(EntityId(short, x.entity), x.inlineDepth, x.place, run) {
      InEmitted(graph, x);
      var g :| g in graph && x == Emitted(g);
      EmittedRelation(g);
      SourceEmitted(g, x);
      var b, i, d := SourceSite(m, k, g);
      PlaceRowOf(short, m, k, run, b, i, d);
    }
    if b: nat, i: nat, d: nat :|
      IsInstr(f, b, i) && d < |f.blocks[b].instructions[i].places| && y == PlaceRow(short, f, k, run, b, i, d)
    {
      PlaceRowOf(short, m, k, run, b, i, d);
      var g := Source(InstrKey(f, k, b, i), d, f.blocks[b].instructions[i].places[d]);
      SiteSource(m, k, b, i, d);
      InEmitted(graph, Emitted(g));
      SourceEmitted(g, Emitted(g));
    }
  }

  lemma SourceSite(m: Module, k: nat, g: Record<Local>) returns (b: nat, i: nat, d: nat)
    requires k < |m.functions| && WellFormed(m, m.functions[k]) && g in Graph(m, k) && g.Source?
    ensures IsInstr(m.functions[k], b, i) && d < |m.functions[k].blocks[b].instructions[i].places|
    ensures g == Source(InstrKey(m.functions[k], k, b, i), d, m.functions[k].blocks[b].instructions[i].places[d])
  {
    hide Graph, WellFormed, CD.Depends, DependenceInRange, Structure, Used, InstrKey;
    var f := m.functions[k];
    GraphExact(m, k, g);
    var s :| Valid(f, s) && g == RecordAt(m, f, k, TableOf(m, k), s);
    b, i, d := s.b, s.i, s.d;
  }

  lemma SiteSource(m: Module, k: nat, b: nat, i: nat, d: nat)
    requires k < |m.functions| && WellFormed(m, m.functions[k])
    requires IsInstr(m.functions[k], b, i) && d < |m.functions[k].blocks[b].instructions[i].places|
    ensures Source(InstrKey(m.functions[k], k, b, i), d, m.functions[k].blocks[b].instructions[i].places[d]) in Graph(m, k)
  {
    hide Graph, WellFormed, CD.Depends, DependenceInRange, Structure, InstrKey;
    var f := m.functions[k];
    var g := Source(InstrKey(f, k, b, i), d, f.blocks[b].instructions[i].places[d]);
    GraphExact(m, k, g);
    assert Valid(f, Place(b, i, d)) && g == RecordAt(m, f, k, TableOf(m, k), Place(b, i, d));
  }

  lemma PlaceRowOf(short: string, m: Module, k: nat, run: string, b: nat, i: nat, d: nat)
    requires k < |m.functions| && IsInstr(m.functions[k], b, i) && d < |m.functions[k].blocks[b].instructions[i].places|
    ensures PlaceRow(short, m.functions[k], k, run, b, i, d) ==
            SourceRow(EntityId(short, Render(InstrKey(m.functions[k], k, b, i))), d,
                      m.functions[k].blocks[b].instructions[i].places[d], run)
  {
    hide EntityId, Render, Base;
  }

  // ---- Entities ----------------------------------------------------------------------------------------------

  /** The row of an instruction, column by column: it lies in its own block. */
  function InstructionRow(short: string, m: Module, k: nat, b: nat, i: nat): EntityRow
    requires k < |m.functions| && IsInstr(m.functions[k], b, i)
  {
    var n, ins := Base(m.functions[k].blocks, b) + i, m.functions[k].blocks[b].instructions[i];
    EntityRow(short, Some(OwnHandle(short, k)), Some(HandleOf(short, BlockOf(k, b))), "instruction",
              Render(InstructionOf(k, n)), Some(n), ins.name, Some(ins.opcode), ins.text, "structure_ready")
  }

  lemma DeclaredAt(m: Module, k: nat, g: Record<Local>) returns (j: nat)
    requires k < |m.functions| && WellFormed(m, m.functions[k]) && g in Graph(m, k) && g.Entity?
    ensures var ents := EntitiesOf(EmittedAll(Graph(m, k))); j < |ents| && ents[j] == Emitted(g)
  {
    hide Graph, WellFormed, Render, EmittedAll, Emitted, EntitiesOf;
    var graph, ents := Graph(m, k), EntitiesOf(EmittedAll(Graph(m, k)));
    InEmitted(graph, Emitted(g));
    EmittedRelation(g);
    j :| 0 <= j < |ents| && ents[j] == Emitted(g);
  }

  /** Every instruction has its row. */
  lemma StoredInstruction(t: Tables, short: string, m: Module, k: nat, run: string, b: nat, i: nat)
    requires SnapshotStored(t, short, m, k, run) && IsInstr(m.functions[k], b, i)
    ensures var h := HandleOf(short, InstructionOf(k, Base(m.functions[k].blocks, b) + i));
            h in t.entities && t.entities[h] == InstructionRow(short, m, k, b, i)
  {
    hide Graph, WellFormed, Base, EntityId, Render, EmittedAll, EntitiesOf, OwnsExactly, RelationsOf, FunctionHandle,
         Scoped, RowsOf, SourcesIn, BlockFor, Structure, CD.Depends, DependenceInRange, RecordAt;
    var f, ins := m.functions[k], m.functions[k].blocks[b].instructions[i];
    var g := Entity("instruction", InstrKey(f, k, b, i), Some(Base(f.blocks, b) + i), ins.name, Some(ins.opcode), ins.text);
    InstructionSite(m, k, b, i);
    var j := DeclaredAt(m, k, g);
    InnerAt(t, short, OwnHandle(short, k), EmittedAll(Graph(m, k)), j);
    BlockForInstruction(m, k, b, i);
  }

  lemma InstructionSite(m: Module, k: nat, b: nat, i: nat)
    requires k < |m.functions| && WellFormed(m, m.functions[k]) && IsInstr(m.functions[k], b, i)
    ensures var f, ins := m.functions[k], m.functions[k].blocks[b].instructions[i];
            Entity("instruction", InstrKey(f, k, b, i), Some(Base(f.blocks, b) + i), ins.name, Some(ins.opcode), ins.text)
            in Graph(m, k)
  {
    hide Graph, WellFormed, CD.Depends, DependenceInRange, Structure, InstrKey, Base;
    var f, ins := m.functions[k], m.functions[k].blocks[b].instructions[i];
    var g := Entity("instruction", InstrKey(f, k, b, i), Some(Base(f.blocks, b) + i), ins.name, Some(ins.opcode), ins.text);
    GraphExact(m, k, g);
    assert Valid(f, Instr(b, i)) && g == RecordAt(m, f, k, TableOf(m, k), Instr(b, i));
  }

  /** The row of an argument or of a block. */
  function PlainRow(short: string, k: nat, kind: string, local: Local, ordinal: nat, name: string): EntityRow {
    EntityRow(short, Some(OwnHandle(short, k)), None, kind, Render(local), Some(ordinal), name, None, "", "structure_ready")
  }

  /** So has every argument, and every block. */
  lemma StoredPlain(t: Tables, short: string, m: Module, k: nat, run: string, s: Site)
    requires SnapshotStored(t, short, m, k, run) && Valid(m.functions[k], s) && (s.Argument? || s.Block?)
    ensures var f := m.functions[k];
            s.Argument? ==> var h := HandleOf(short, ArgumentOf(k, s.a));
                            h in t.entities &&
                            t.entities[h] == PlainRow(short, k, "argument", ArgumentOf(k, s.a), s.a, f.arguments[s.a])
    ensures var f := m.functions[k];
            s.Block? ==> var h := HandleOf(short, BlockOf(k, s.b));
                         h in t.entities &&
                         t.entities[h] == PlainRow(short, k, "basic_block", BlockOf(k, s.b), s.b, f.blocks[s.b].name)
  {
    hide Graph, WellFormed, EntityId, Render, EmittedAll, EntitiesOf, OwnsExactly, RelationsOf, FunctionHandle,
         Scoped, RowsOf, SourcesIn, BlockFor, Structure, CD.Depends, DependenceInRange;
    var f := m.functions[k];
    var g := RecordAt(m, f, k, TableOf(m, k), s);
    GraphExact(m, k, g);
    var j := DeclaredAt(m, k, g);
    InnerAt(t, short, OwnHandle(short, k), EmittedAll(Graph(m, k)), j);
  }

  /** And nothing else is owned but the constants that are used. */
  lemma StoredOwned(t: Tables, short: string, m: Module, k: nat, run: string, id: Handle)
    requires SnapshotStored(t, short, m, k, run)
    ensures var f := m.functions[k];
            Owned(t.entities, OwnHandle(short, k), id) <==>
            exists s :: DeclaresInside(f, s) && id == HandleOf(short, KeyAt(m, f, k, TableOf(m, k), s))
  {
    hide Graph, WellFormed, EntityId, Render, EmittedAll, EntitiesOf, RelationsOf, FunctionHandle, Scoped, RowsOf, SourcesIn,
         Owned, InnerRow, Structure, CD.Depends, DependenceInRange, DeclaresInside, KeyAt, Emitted, InnerId, CertifiedBy;
    var f, graph, rs := m.functions[k], Graph(m, k), EmittedAll(Graph(m, k));
    if InnerId(short, rs, id) {
      var g := InnerRecord(m, k, short, id);
      var s := InnerSite(m, k, g);
    }
    if s :| DeclaresInside(f, s) && id == HandleOf(short, KeyAt(m, f, k, TableOf(m, k), s)) {
      var g := SiteInner(m, k, s);
      var j := DeclaredAt(m, k, g);
      InnerIdOf(short, rs, j, g);
    }
  }

  lemma InnerIdOf(short: string, rs: seq<Record<string>>, j: nat, g: Record<Local>)
    requires g.Entity? && !ModuleScoped(g.kind) && j < |EntitiesOf(rs)| && EntitiesOf(rs)[j] == Emitted(g)
    ensures InnerId(short, rs, HandleOf(short, g.local))
  {
    hide EntityId, Render, EntitiesOf;
    assert IsInner(EntitiesOf(rs), j);
  }

  lemma InnerRecord(m: Module, k: nat, short: string, id: Handle) returns (g: Record<Local>)
    requires k < |m.functions| && WellFormed(m, m.functions[k]) && InnerId(short, EmittedAll(Graph(m, k)), id)
    ensures g in Graph(m, k) && g.Entity? && !ModuleScoped(g.kind) && id == HandleOf(short, g.local)
  {
    hide Graph, WellFormed, EntityId, Render, EmittedAll, EntitiesOf;
    var rs := EmittedAll(Graph(m, k));
    var i :| IsInner(EntitiesOf(rs), i) && EntityId(short, EntitiesOf(rs)[i].local) == id;
    var x := EntitiesOf(rs)[i];
    assert x in EntitiesOf(rs);
    InEmitted(Graph(m, k), x);
    g :| g in Graph(m, k) && x == Emitted(g);
    EmittedRelation(g);
  }

  lemma InnerSite(m: Module, k: nat, g: Record<Local>) returns (s: Site)
    requires k < |m.functions| && WellFormed(m, m.functions[k])
    requires g in Graph(m, k) && g.Entity? && !ModuleScoped(g.kind)
    ensures DeclaresInside(m.functions[k], s) && g.local == KeyAt(m, m.functions[k], k, TableOf(m, k), s)
  {
    hide Graph, WellFormed, CD.Depends, DependenceInRange, Structure, Used, Base, NameOf;
    var f := m.functions[k];
    GraphExact(m, k, g);
    s :| Valid(f, s) && g == RecordAt(m, f, k, TableOf(m, k), s);
  }

  lemma SiteInner(m: Module, k: nat, s: Site) returns (g: Record<Local>)
    requires k < |m.functions| && WellFormed(m, m.functions[k]) && DeclaresInside(m.functions[k], s)
    ensures g in Graph(m, k) && g.Entity? && !ModuleScoped(g.kind)
    ensures g.local == KeyAt(m, m.functions[k], k, TableOf(m, k), s)
  {
    hide Graph, WellFormed, CD.Depends, DependenceInRange, Structure, Used, Base, NameOf;
    g := RecordAt(m, m.functions[k], k, TableOf(m, k), s);
    GraphExact(m, k, g);
  }
}
