/** What a reader is told: however many statements it reads with, and whatever is committed between them. */
module LeaseAnswers {
  import opened Wrappers
  import opened Keys
  import opened Records
  import opened Adapter
  import opened Snapshot
  import opened SnapshotProperties
  import opened SnapshotTheorems
  import opened SnapshotContent
  import opened EndToEnd
  import opened GuardAnswers
  import opened Namesakes
  import opened Leases
  import opened LeaseProperties
  import opened LeaseSafety
  import opened LeaseSnapshots
  import opened LeaseTheorems
  import opened SliceRows
  import S = Slice
  import R = Relations

  // ---- A snapshot is replaced, never removed -----------------------------------------------------------------

  /** No manifest loses a capability of the contract. */
  ghost predicate ManifestsStay(t: Tables, t': Tables) {
    forall x :: x in t.capabilities && x.1 in CONTRACT ==> x in t'.capabilities
  }

  lemma CommitKeepsManifests(w: World, s: State, p: Process)
    requires Inv(w, s) && WorldOk(w) && p in s.processes && s.processes[p].Working?
    requires InWorld(w, s.processes[p].short, s.processes[p].k)
    ensures ManifestsStay(s.tables, AfterCommit(w, s, p).tables)
  {
    hide OwnHandle, WorldOk, Inv, Graph, EmittedAll, WellFormed, Select, Catalogued, RowsOf, RelationsOf, Keyed,
         IsShort, AfterCommit, CertifiedBy, After, CONTRACT, Fitting, GraphRows, Certified;
    var l := s.processes[p];
    var j := CommitGraph(w, s, p);
    var h, rs := OwnHandle(l.short, l.k), EmittedAll(Graph(w.artifacts[l.short], j));
    AnyCommit(s.tables, l.short, w.artifacts[l.short], j, h, l.run);
    FitsAfter(s.tables, l.short, FunctionKey(j), h, rs, l.run);
  }

  lemma FitsAfter(t: Tables, short: string, key: string, f: Handle, rs: seq<Record<string>>, run: string)
    requires Fitting(t, short, key, rs)
    ensures ManifestsStay(t, After(t, short, f, rs, run))
  {
    hide After, Fitting, Certified, CONTRACT;
    AfterParts(t, short, key, f, rs, run);
    forall x | x in t.capabilities && x.1 in CONTRACT ensures x in After(t, short, f, rs, run).capabilities {
      CertifiedAt(t.capabilities, f, run, x.0, x.1);
      assert x == (x.0, x.1);
    }
  }

  lemma StepKeepsManifests(w: World, s: State, a: Action)
    requires Inv(w, s) && WorldOk(w) && Enabled(w, s, a)
    ensures ManifestsStay(s.tables, Apply(w, s, a).tables)
  {
    hide OwnHandle, Inv, WorldOk, InWorld, AfterCommit, CataloguedEntities, ResetRows, CONTRACT, Takeable,
         CatalogTakeable, Sensible;
    InvParts(w, s);
    if a.Commit? {
      WorksInWorld(w, s, a.p);
      CommitKeepsManifests(w, s, a.p);
    }
  }

  lemma {:induction false} ManifestsKept(w: World, states: seq<State>, actions: seq<Action>, i: nat, j: nat)
    requires Execution(w, states, actions) && i <= j < |states|
    ensures ManifestsStay(states[i].tables, states[j].tables)
    decreases j - i
  {
    hide Inv, WorldOk, Enabled, Apply, Init, CONTRACT;
    if i < j {
      ManifestsKept(w, states, actions, i, j - 1);
      Reached(w, states, actions, j - 1);
      StepKeepsManifests(w, states[j - 1], actions[j - 1]);
    }
  }

  /** A function of a faithful artifact that has a snapshot has a whole one at every later moment. */
  lemma WholeStays(w: World, states: seq<State>, actions: seq<Action>, i: nat, j: nat, short: string, k: nat)
    requires Execution(w, states, actions) && i <= j < |states|
    requires InWorld(w, short, k) && Faithful(w.artifacts[short]) && !Blank(states[i].tables, OwnHandle(short, k))
    ensures exists run :: OneRun(w, states[j], short, k, run)
  {
    hide OwnHandle, Inv, Execution, OneRun, WorldOk, Blank, Faithful, CONTRACT, ArtifactInv;
    ReachedArtifact(w, states, actions, i, short);
    NeverMixed(w, states, actions, i, short, k);
    var run :| OneRun(w, states[i], short, k, run);
    ContractNotEmpty();
    WholeCertifies(w, states[i], short, k, run, "cfg");
    ManifestsKept(w, states, actions, i, j);
    NeverMixed(w, states, actions, j, short, k);
    CertifiedNotBlank(states[j].tables, OwnHandle(short, k), "cfg");
  }

  lemma WholeCertifies(w: World, s: State, short: string, k: nat, run: string, c: string)
    requires WorldOk(w) && InWorld(w, short, k) && OneRun(w, s, short, k, run) && c in CONTRACT
    ensures (OwnHandle(short, k), c) in s.tables.capabilities
  {
    hide OwnHandle, OwnRecords, RowsOf, RelationsOf, SourcesOf, SourcesIn, Owned, OwnsExactly, WorldOk, InWorld, CONTRACT;
  }

  lemma CertifiedNotBlank(t: Tables, h: Handle, c: string)
    requires (h, c) in t.capabilities
    ensures !Blank(t, h)
  {
  }

  lemma ContractNotEmpty()
    ensures "cfg" in CONTRACT
  {
  }

  // ---- Guards and slices -------------------------------------------------------------------------------------

  /** Every slice that a target of function `k` asks for is the slice of the function's own graph. */
  ghost predicate SlicesExact(rows: seq<R.Relation>, short: string, m: Module, k: nat, run: string)
    requires k < |m.functions| && WellFormed(m, m.functions[k])
  {
    forall q: R.Query, root, n, d :: q.functionId == Some(OwnHandle(short, k)) ==>
      S.SliceOf(rows, q, root, n, d) == S.SliceOf(GraphRows(short, OwnHandle(short, k), m, k, run), q, root, n, d)
  }

  lemma {:induction false} OfFunctionIsRowsOf(q: R.Query, h: Handle, rows: seq<R.Relation>)
    requires q.functionId == Some(h)
    ensures R.OfFunction(q, rows) == RowsOf(h, rows)
  {
    if rows != [] {
      OfFunctionIsRowsOf(q, h, rows[1..]);
      RowsOfAppend(h, rows[..1], rows[1..]);
      assert rows[..1] + rows[1..] == rows;
      RowsOfOne(h, rows[0]);
      assert rows[..1] == [rows[0]];
    }
  }

  lemma RowsOfOne(h: Handle, r: R.Relation)
    ensures RowsOf(h, [r]) == if r.functionId == Some(h) then [r] else []
  {
    assert [r][..0] == [];
  }

  lemma StoredSlices(t: Tables, short: string, m: Module, k: nat, run: string)
    requires SnapshotStored(t, short, m, k, run)
    ensures SlicesExact(t.relations, short, m, k, run)
  {
    hide OwnHandle, RowsOf, GraphRows, Graph, WellFormed, Scoped, OwnsExactly, SourcesIn, CertifiedBy;
    var h, own := OwnHandle(short, k), GraphRows(short, OwnHandle(short, k), m, k, run);
    GraphRowsOwn(t, short, m, k, run);
    forall q: R.Query, root, n, d | q.functionId == Some(h)
      ensures S.SliceOf(t.relations, q, root, n, d) == S.SliceOf(own, q, root, n, d)
    {
      OfFunctionIsRowsOf(q, h, t.relations);
      OfFunctionIsRowsOf(q, h, own);
      OtherRowsIgnored(t.relations, q, root, n, d);
      OtherRowsIgnored(own, q, root, n, d);
    }
  }

  lemma GraphRowsOwn(t: Tables, short: string, m: Module, k: nat, run: string)
    requires SnapshotStored(t, short, m, k, run)
    ensures var own := GraphRows(short, OwnHandle(short, k), m, k, run);
            RowsOf(OwnHandle(short, k), t.relations) == own && RowsOf(OwnHandle(short, k), own) == own
  {
    hide OwnHandle, RowsOf, Graph, WellFormed, Scoped, OwnsExactly, SourcesIn, CertifiedBy, RelationsOf;
    RowsOfAll(OwnHandle(short, k), GraphRows(short, OwnHandle(short, k), m, k, run), OwnHandle(short, k));
  }

  /** What the readers of function `k` find is exact, and by one successful run. */
  ghost predicate AnswersExact(w: World, s: State, short: string, k: nat)
    requires WorldOk(w) && InWorld(w, short, k) && WellFormed(w.artifacts[short], w.artifacts[short].functions[k])
  {
    var m := w.artifacts[short];
    exists run ::
      && run in s.runs && s.runs[run] == Success
      && SlicesExact(s.tables.relations, short, m, k, run)
      && (forall b: nat, i: nat :: b < |m.functions[k].blocks| && i < |m.functions[k].blocks[b].instructions| ==>
            GuardsExact(s.tables, short, m, k, run, b, i))
      && forall b: nat, budget :: b < |m.functions[k].blocks| ==> BlockTold(s.tables, short, m, k, run, b, budget)
  }

  /**
   * Once a function of a faithful artifact was ready, all its slices and guards are exact at every later moment,
   * whatever was committed meanwhile and whatever else the store holds.
   */
  lemma LaterAnswers(w: World, states: seq<State>, actions: seq<Action>, i: nat, j: nat, short: string, k: nat)
    requires Execution(w, states, actions) && i <= j < |states|
    requires InWorld(w, short, k) && Faithful(w.artifacts[short]) && IsReady(states[i], OwnHandle(short, k))
    ensures WellFormed(w.artifacts[short], w.artifacts[short].functions[k]) && AnswersExact(w, states[j], short, k)
  {
    hide Execution, OwnHandle, Inv, OneRun, WorldOk, ArtifactInv, Faithful, SnapshotStored, GuardsExact, BlockTold,
         SlicesExact, WellFormed, Blank, CONTRACT;
    ReachedArtifact(w, states, actions, i, short);
    ReachedArtifact(w, states, actions, j, short);
    FunctionOk(w, short, k);
    KnownSnapshot(w, states[i], short, k);
    var before :| OneRun(w, states[i], short, k, before);
    ContractNotEmpty();
    WholeCertifies(w, states[i], short, k, before, "cfg");
    CertifiedNotBlank(states[i].tables, OwnHandle(short, k), "cfg");
    WholeStays(w, states, actions, i, j, short, k);
    var run :| OneRun(w, states[j], short, k, run);
    OneRunIsStored(w, states[j], short, k, run);
    StoredSlices(states[j].tables, short, w.artifacts[short], k, run);
    var m := w.artifacts[short];
    forall b: nat, n: nat | b < |m.functions[k].blocks| && n < |m.functions[k].blocks[b].instructions|
      ensures GuardsExact(states[j].tables, short, m, k, run, b, n)
    {
      GuardsAreControlDependences(states[j].tables, short, m, k, run, b, n);
    }
    forall b: nat, budget | b < |m.functions[k].blocks| ensures BlockTold(states[j].tables, short, m, k, run, b, budget) {
      GuardsTold(states[j].tables, short, m, k, run, b, budget);
    }
  }

  /** So every such answer, its runs aside, is told by the module alone. */
  lemma AnswerByGraph(w: World, states: seq<State>, actions: seq<Action>, i: nat, j: nat, short: string, k: nat,
                      q: R.Query, root: Handle, n: int, d: int)
    requires Execution(w, states, actions) && i <= j < |states|
    requires InWorld(w, short, k) && Faithful(w.artifacts[short]) && IsReady(states[i], OwnHandle(short, k))
    requires q.functionId == Some(OwnHandle(short, k))
    ensures WellFormed(w.artifacts[short], w.artifacts[short].functions[k])
    ensures RerunOutcome(S.SliceOf(states[j].tables.relations, q, root, n, d), "") ==
            S.SliceOf(GraphRows(short, OwnHandle(short, k), w.artifacts[short], k, ""), q, root, n, d)
  {
    hide Execution, OwnHandle, WorldOk, Faithful, IsReady, WellFormed, GuardsExact, BlockTold, SlicesExact;
    LaterAnswers(w, states, actions, i, j, short, k);
    var run :| SlicesExact(states[j].tables.relations, short, w.artifacts[short], k, run);
    SliceAt(states[j].tables.relations, short, w.artifacts[short], k, run, q, root, n, d);
    SliceAnyRun(short, w.artifacts[short], k, run, q, root, n, d);
  }

  lemma SliceAt(rows: seq<R.Relation>, short: string, m: Module, k: nat, run: string, q: R.Query, root: Handle, n: int,
                d: int)
    requires k < |m.functions| && WellFormed(m, m.functions[k]) && SlicesExact(rows, short, m, k, run)
    requires q.functionId == Some(OwnHandle(short, k))
    ensures S.SliceOf(rows, q, root, n, d) ==
            S.SliceOf(GraphRows(short, OwnHandle(short, k), m, k, run), q, root, n, d)
  {
    hide OwnHandle, WellFormed, GraphRows;
  }

  /** And two readers get the same one, however many commits of the function lie between them. */
  lemma OneAnswer(w: World, states: seq<State>, actions: seq<Action>, i: nat, j: nat, l: nat, short: string, k: nat,
                  q: R.Query, root: Handle, n: int, d: int)
    requires Execution(w, states, actions) && i <= j < |states| && i <= l < |states|
    requires InWorld(w, short, k) && Faithful(w.artifacts[short]) && IsReady(states[i], OwnHandle(short, k))
    requires q.functionId == Some(OwnHandle(short, k))
    ensures RerunOutcome(S.SliceOf(states[j].tables.relations, q, root, n, d), "") ==
            RerunOutcome(S.SliceOf(states[l].tables.relations, q, root, n, d), "")
  {
    hide *;
    AnswerByGraph(w, states, actions, i, j, short, k, q, root, n, d);
    AnswerByGraph(w, states, actions, i, l, short, k, q, root, n, d);
  }

  lemma SliceAnyRun(short: string, m: Module, k: nat, run: string, q: R.Query, root: Handle, n: int, d: int)
    requires k < |m.functions| && WellFormed(m, m.functions[k])
    ensures RerunOutcome(S.SliceOf(GraphRows(short, OwnHandle(short, k), m, k, run), q, root, n, d), "") ==
            S.SliceOf(GraphRows(short, OwnHandle(short, k), m, k, ""), q, root, n, d)
  {
    hide OwnHandle, Graph, WellFormed, RerunOutcome, RelationsOf;
    var rows := GraphRows(short, OwnHandle(short, k), m, k, run);
    assert Rerun(rows, "") == GraphRows(short, OwnHandle(short, k), m, k, "");
    RunsIgnored(rows, q, root, n, d, "");
  }
}
