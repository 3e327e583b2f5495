/** What the guards of each thing in a function are, told in the columns of the rows and the paths of the graph. */
module GuardAnswers {
  import opened Wrappers
  import opened Ordering
  import opened Keys
  import opened Records
  import opened Adapter
  import opened AdapterProperties
  import opened Snapshot
  import opened SnapshotProperties
  import opened SnapshotTheorems
  import opened SnapshotContent
  import opened EndToEnd
  import G = Guards
  import R = Relations
  import CD = ControlDependence

  /** The row of a control dependence, column by column; its dst is the last instruction of the branch. */
  function GuardRow(short: string, m: Module, k: nat, run: string, d: CD.Dependence): R.Relation
    requires k < |m.functions| && DependenceInRange(m.functions[k], d)
  {
    var f := m.functions[k];
    var edge := f.blocks[d.branch].successors[d.ordinal];
    R.Relation(Some(OwnHandle(short, k)),
               HandleOf(short, BlockOf(k, d.block)),
               HandleOf(short, InstructionOf(k, Base(f.blocks, d.branch) + |f.blocks[d.branch].instructions| - 1)),
               "llvm.control-dependence", Some(d.ordinal), run,
               edge.attributes["successor" := Render(BlockOf(k, edge.block))])
  }

  lemma GuardRowIs(short: string, m: Module, k: nat, run: string, d: CD.Dependence)
    requires k < |m.functions| && DependenceInRange(m.functions[k], d)
    ensures GuardRow(short, m, k, run, d) == DependenceRow(short, m, k, run, d)
  {
    hide EntityId, Render, Base;
  }

  /** By terminator, then by the number of the successor. */
  predicate InOrder(a: R.Relation, b: R.Relation) {
    if a.dst == b.dst then a.ordinal.None? || (b.ordinal.Some? && a.ordinal.value <= b.ordinal.value)
    else TextLeq(a.dst, b.dst)
  }

  /** The list holds the rows of the control dependences of block `b`, each once and in order. */
  ghost predicate Lists(all: seq<R.Relation>, short: string, m: Module, k: nat, run: string, b: nat)
    requires k < |m.functions|
  {
    && (forall r :: r in all <==>
          exists d :: CD.Depends(CfgOf(m.functions[k]), d) && d.block == b && DependenceInRange(m.functions[k], d) &&
                      r == GuardRow(short, m, k, run, d))
    && (forall i, j :: 0 <= i < j < |all| ==> all[i] != all[j] && InOrder(all[i], all[j]))
  }

  /**
   * The answer is exact. It shows the list up to the budget, is truncated when the list is longer, and then names the
   * terminator of the first row left out; a budget below -1 is no limit, and every terminator is left out.
   */
  predicate Reports(a: Option<G.Answer>, all: seq<R.Relation>, budget: int) {
    && a.Some? && a.value.exact
    && a.value.guards == (if budget < 0 then [] else if budget < |all| then all[..budget] else all)
    && (a.value.truncated <==> |all| > budget)
    && (0 <= budget < |all| ==> a.value.boundaries == [all[budget].dst])
    && (budget == -1 || budget >= |all| ==> a.value.boundaries == [])
    && (budget < -1 ==> |a.value.boundaries| == |all| && forall i :: 0 <= i < |all| ==> a.value.boundaries[i] == all[i].dst)
  }

  lemma CutReports(t: Tables, handle: Handle, budget: int, block: Handle)
    requires handle in t.entities && G.DependenceKnown(t, handle) && G.GuardedBlock(t, handle) == block
    ensures Reports(G.AnswerOf(t, handle, budget), G.AllGuards(t, true, block), budget)
  {
    hide G.AllGuards, G.DependenceKnown, G.GuardedBlock;
  }

  // ---- Blocks and instructions -------------------------------------------------------------------------------

  lemma BlockLists(t: Tables, short: string, m: Module, k: nat, run: string, b: nat)
    requires SnapshotStored(t, short, m, k, run) && b < |m.functions[k].blocks|
    ensures Lists(G.AllGuards(t, true, HandleOf(short, BlockOf(k, b))), short, m, k, run, b)
  {
    hide SnapshotStored, EntityId, Render, G.AllGuards, DependenceInRange, CD.Depends, GuardRow, DependenceRow, WellFormed;
    StoredFunction(t, short, m, k, run);
    BlockGuards(t, short, m, k, run, b);
    var all := G.AllGuards(t, true, HandleOf(short, BlockOf(k, b)));
    forall d | DependenceInRange(m.functions[k], d)
      ensures GuardRow(short, m, k, run, d) == DependenceRow(short, m, k, run, d)
    {
      GuardRowIs(short, m, k, run, d);
    }
    forall i, j | 0 <= i < j < |all| ensures all[i] != all[j] && InOrder(all[i], all[j]) {
      TwiceCounts(all, i, j);
      ByDstColumns(all[i], all[j]);
    }
  }

  lemma TwiceCounts(all: seq<R.Relation>, i: nat, j: nat)
    requires i < j < |all|
    ensures all[i] == all[j] ==> multiset(all)[all[i]] >= 2
  {
    if all[i] == all[j] {
      var a, c := all[..j], all[j..];
      assert all == a + c;
      assert a[i] in a && c[0] in c;
      assert multiset(all)[all[i]] == multiset(a)[a[i]] + multiset(c)[c[0]];
    }
  }

  lemma ByDstColumns(a: R.Relation, b: R.Relation)
    requires R.Leq(R.ByDst, a, b)
    ensures InOrder(a, b)
  {
  }

  /** A block is answered for itself. */
  lemma BlockAnswered(t: Tables, short: string, m: Module, k: nat, run: string, b: nat)
    requires SnapshotStored(t, short, m, k, run) && b < |m.functions[k].blocks|
    ensures var h := HandleOf(short, BlockOf(k, b));
            h in t.entities && G.GuardedBlock(t, h) == h && G.DependenceKnown(t, h)
  {
    hide Graph, WellFormed, Base, EntityId, Render, EmittedAll, EntitiesOf, OwnsExactly, RelationsOf, FunctionHandle,
         Scoped, RowsOf, SourcesIn, BlockFor;
    var j := BlockEmitted(m, k, b);
    InnerAt(t, short, OwnHandle(short, k), EmittedAll(Graph(m, k)), j);
  }

  function InstructionHandle(short: string, m: Module, k: nat, b: nat, i: nat): Handle
    requires k < |m.functions| && b < |m.functions[k].blocks|
  {
    HandleOf(short, InstructionOf(k, Base(m.functions[k].blocks, b) + i))
  }

  /** The block and each of its instructions are answered with the block's list. */
  ghost predicate BlockTold(t: Tables, short: string, m: Module, k: nat, run: string, b: nat, budget: int)
    requires k < |m.functions| && b < |m.functions[k].blocks|
  {
    exists all ::
      && Lists(all, short, m, k, run, b)
      && Reports(G.AnswerOf(t, HandleOf(short, BlockOf(k, b)), budget), all, budget)
      && forall i: nat :: i < |m.functions[k].blocks[b].instructions| ==>
           Reports(G.AnswerOf(t, InstructionHandle(short, m, k, b, i), budget), all, budget)
  }

  /** They are, while the snapshot is stored. */
  lemma GuardsTold(t: Tables, short: string, m: Module, k: nat, run: string, b: nat, budget: int)
    requires SnapshotStored(t, short, m, k, run) && b < |m.functions[k].blocks|
    ensures BlockTold(t, short, m, k, run, b, budget)
  {
    hide SnapshotStored, EntityId, Render, G.AllGuards, G.DependenceKnown, G.GuardedBlock, G.AnswerOf;
    hide Lists, Reports, Base, WellFormed;
    StoredFunction(t, short, m, k, run);
    var block := HandleOf(short, BlockOf(k, b));
    var all := G.AllGuards(t, true, block);
    BlockLists(t, short, m, k, run, b);
    BlockAnswered(t, short, m, k, run, b);
    CutReports(t, block, budget, block);
    forall i: nat | i < |m.functions[k].blocks[b].instructions|
      ensures Reports(G.AnswerOf(t, InstructionHandle(short, m, k, b, i), budget), all, budget)
    {
      InstructionAnswered(t, short, m, k, run, b, i);
      CutReports(t, InstructionHandle(short, m, k, b, i), budget, block);
    }
  }

  // ---- Everything else ---------------------------------------------------------------------------------------

  /** An inner entity of the list that is neither an instruction nor a block. */
  predicate IsLeaf(local: Local) {
    local.ArgumentOf? || local.ConstantOf?
  }

  lemma LeafEmitted(m: Module, k: nat, local: Local) returns (j: nat)
    requires k < |m.functions| && WellFormed(m, m.functions[k]) && IsLeaf(local) && Declares(Graph(m, k), local)
    ensures var ents := EntitiesOf(EmittedAll(Graph(m, k)));
            j < |ents| && ents[j].Entity? && ents[j].local == Render(local) &&
            ents[j].kind == (if local.ArgumentOf? then "argument" else "constant")
  {
    hide Graph, WellFormed, Structure, Render, Tabled, Unambiguous, Holder, Known;
    var graph := Graph(m, k);
    EmittedDeclares(graph, local);
    j := DeclaredRecord(EmittedAll(graph), Render(local));
    var r := EntitiesOf(EmittedAll(graph))[j];
    assert r in EntitiesOf(EmittedAll(graph)) && r in EmittedAll(graph);
    var i :| 0 <= i < |graph| && EmittedAll(graph)[i] == r;
    WholeFits(m, k, i);
    RenderInjective(graph[i].local, local);
  }

  /** No control dependence starts at such an entity. */
  lemma NoGuardStarts(t: Tables, short: string, m: Module, k: nat, run: string, local: Local, r: R.Relation)
    requires SnapshotStored(t, short, m, k, run) && !local.BlockOf?
    requires r in t.relations && r.functionId == Some(OwnHandle(short, k)) && r.kind == CONTROL_DEPENDENCE
    ensures r.src != HandleOf(short, local)
  {
    hide Graph, WellFormed, EntityId, Render, EmittedAll, RelationsOf, FunctionHandle, Complete, Scoped, CD.Depends,
         DependenceInRange, DependenceRecord;
    StoredRow(t, short, m, k, run, r);
    var rels := RelationsOf(EmittedAll(Graph(m, k)));
    var rows := RelationRows(short, OwnHandle(short, k), run, rels);
    var i :| 0 <= i < |rows| && rows[i] == r;
    assert rels[i] in rels;
    DependenceRecordBack(m, k, rels[i]);
    var d :| CD.Depends(CfgOf(m.functions[k]), d) && DependenceInRange(m.functions[k], d) &&
             rels[i] == Emitted(DependenceRecord(m.functions[k], k, d));
    DependenceEnds(m, k, d);
    HandleInjective(short, BlockOf(k, d.block), short, local);
  }

  /** Arguments and constants have no guards, and that is exact. */
  lemma LeafAnswered(t: Tables, short: string, m: Module, k: nat, run: string, local: Local, budget: int)
    requires SnapshotStored(t, short, m, k, run) && IsLeaf(local) && Declares(Graph(m, k), local)
    ensures Reports(G.AnswerOf(t, HandleOf(short, local), budget), [], budget)
  {
    hide Graph, WellFormed, EntityId, Render, EmittedAll, EntitiesOf, OwnsExactly, RelationsOf, FunctionHandle, Scoped,
         RowsOf, SourcesIn, BlockFor, Declares, Reports, G.AllGuards;
    var h, f := HandleOf(short, local), OwnHandle(short, k);
    var j := LeafEmitted(m, k, local);
    InnerAt(t, short, f, EmittedAll(Graph(m, k)), j);
    LeafOwned(t, short, m, k, run, local, j);
    forall r ensures r !in G.AllGuards(t, true, h) {
      LeafUnguarded(t, short, m, k, run, local, r);
    }
    NothingIn(G.AllGuards(t, true, h));
    CutReports(t, h, budget, h);
  }

  lemma NothingIn<T>(s: seq<T>)
    requires forall x :: x !in s
    ensures s == []
  {
    SomeElement(s);
  }

  lemma LeafOwned(t: Tables, short: string, m: Module, k: nat, run: string, local: Local, j: nat)
    requires SnapshotStored(t, short, m, k, run) && IsLeaf(local)
    requires IsInner(EntitiesOf(EmittedAll(Graph(m, k))), j)
    requires EntitiesOf(EmittedAll(Graph(m, k)))[j].local == Render(local)
    ensures Owned(t.entities, OwnHandle(short, k), HandleOf(short, local))
  {
    hide Graph, WellFormed, EntityId, Render, EmittedAll, EntitiesOf, RelationsOf, FunctionHandle, Scoped, RowsOf, SourcesIn,
         Owned, InnerRow;
    assert InnerId(short, EmittedAll(Graph(m, k)), HandleOf(short, local));
  }

  lemma LeafUnguarded(t: Tables, short: string, m: Module, k: nat, run: string, local: Local, r: R.Relation)
    requires SnapshotStored(t, short, m, k, run) && IsLeaf(local)
    requires Owned(t.entities, OwnHandle(short, k), HandleOf(short, local))
    ensures r !in G.AllGuards(t, true, HandleOf(short, local))
  {
    hide Graph, WellFormed, EntityId, Render, FunctionHandle, Complete, Owned, G.AllGuards;
    if r in t.relations && r.src == HandleOf(short, local) && r.kind == CONTROL_DEPENDENCE {
      NoGuardStarts(t, short, m, k, run, local, r);
    }
  }

  /** The function itself is answered for itself, exactly, and with no row of its own. */
  lemma FunctionAnswered(t: Tables, short: string, m: Module, k: nat, run: string, budget: int)
    requires SnapshotStored(t, short, m, k, run) && OwnHandle(short, k) in t.entities
    requires t.entities[OwnHandle(short, k)].kind == "function" && t.entities[OwnHandle(short, k)].functionId == None
    ensures var h := OwnHandle(short, k);
            && Reports(G.AnswerOf(t, h, budget), G.AllGuards(t, true, h), budget)
            && forall r :: r in G.AllGuards(t, true, h) ==> r.functionId != Some(h) && r.src == h
  {
    hide Graph, WellFormed, EntityId, Render, EmittedAll, OwnsExactly, RelationsOf, FunctionHandle, Scoped, RowsOf,
         SourcesIn, Reports, G.AllGuards;
    var h := OwnHandle(short, k);
    CutReports(t, h, budget, h);
    forall r | r in G.AllGuards(t, true, h) ensures r.functionId != Some(h) && r.src == h {
      if r.functionId == Some(h) {
        OwnHandleText(short, k);
        NoGuardStarts(t, short, m, k, run, FunctionOf(k), r);
      }
    }
  }

  // ---- The rows that count -----------------------------------------------------------------------------------

  /** By the terminator's column and the ordinal, missing ones first. */
  predicate Ascending(exact: bool, a: R.Relation, b: R.Relation) {
    var x, y := if exact then a.dst else a.src, if exact then b.dst else b.src;
    if x != y then TextLeq(x, y)
    else a.ordinal.None? || (b.ordinal.Some? && a.ordinal.value <= b.ordinal.value)
  }

  /** Exactly: the dependences of the block. Otherwise: the terminators that lead to it. Each as often as stored. */
  lemma GuardColumns(t: Tables, exact: bool, block: Handle)
    ensures var all := G.AllGuards(t, exact, block);
            && (forall r :: multiset(all)[r] ==
                            if (if exact then r.kind == "llvm.control-dependence" && r.src == block && r.dst in t.entities
                                else r.kind == "llvm.cfg-successor" && r.dst == block && r.src in t.entities)
                            then multiset(t.relations)[r] else 0)
            && (forall i, j :: 0 <= i < j < |all| ==> Ascending(exact, all[i], all[j]))
  {
    hide R.Leq;
    forall r ensures multiset(G.AllGuards(t, exact, block))[r] ==
                     if G.IsGuard(t.entities, exact, block, r) then multiset(t.relations)[r] else 0
    {
      GuardRowsCount(t.entities, exact, block, t.relations, r);
    }
    var rows := G.GuardRows(t.entities, exact, block, t.relations);
    R.SortSorted(if exact then R.ByDst else R.BySrc, rows);
    var all := G.AllGuards(t, exact, block);
    forall i, j | 0 <= i < j < |all| ensures Ascending(exact, all[i], all[j]) {
      LeqAscending(exact, all[i], all[j]);
    }
  }

  lemma LeqAscending(exact: bool, a: R.Relation, b: R.Relation)
    requires R.Leq(if exact then R.ByDst else R.BySrc, a, b)
    ensures Ascending(exact, a, b)
  {
  }

  lemma {:induction false} GuardRowsCount(es: map<Handle, EntityRow>, exact: bool, block: Handle, rows: seq<R.Relation>,
                                          r: R.Relation)
    ensures multiset(G.GuardRows(es, exact, block, rows))[r] ==
            if G.IsGuard(es, exact, block, r) then multiset(rows)[r] else 0
  {
    hide G.IsGuard;
    if rows != [] {
      GuardRowsCount(es, exact, block, rows[..|rows| - 1], r);
      assert rows == rows[..|rows| - 1] + [rows[|rows| - 1]];
    }
  }
}
