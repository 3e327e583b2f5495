/** What every interleaving keeps of an artifact whose definitions are found by their keys: no snapshot is ever mixed. */
module LeaseSnapshots {
  import opened Wrappers
  import opened Keys
  import opened Records
  import opened Adapter
  import opened Snapshot
  import opened SnapshotProperties
  import opened SnapshotTheorems
  import opened SnapshotContent
  import opened Partition
  import opened EndToEnd
  import opened Namesakes
  import opened Leases
  import opened LeaseProperties
  import opened LeaseSafety

  // ---- The invariant of one artifact -------------------------------------------------------------------------

  /** The record list of function `k` itself. */
  ghost function OwnRecords(w: World, short: string, k: nat): seq<Record<string>>
    requires WorldOk(w) && InWorld(w, short, k)
  {
    EmittedAll(Graph(w.artifacts[short], k))
  }

  /** The whole snapshot by a run that succeeded. */
  ghost predicate WholeBy(w: World, s: State, t: Tables, short: string, k: nat, run: string)
    requires WorldOk(w) && InWorld(w, short, k)
  {
    run in s.runs && s.runs[run] == Success && Complete(t, short, OwnHandle(short, k), OwnRecords(w, short, k), run)
  }

  ghost predicate Whole(w: World, s: State, t: Tables, short: string, k: nat)
    requires WorldOk(w) && InWorld(w, short, k)
  {
    exists run :: WholeBy(w, s, t, short, k, run)
  }

  predicate IsReady(s: State, h: Handle) {
    h in s.rows && s.rows[h].status == StructureReady
  }

  /** A snapshot is absent or whole; a ready one is whole and stamped by this build. */
  ghost predicate SnapshotSound(w: World, s: State, short: string, k: nat)
    requires WorldOk(w) && InWorld(w, short, k)
  {
    var t, h := Part(s.tables, short), OwnHandle(short, k);
    && (Blank(t, h) || Whole(w, s, t, short, k))
    && (IsReady(s, h) ==> Whole(w, s, t, short, k) && s.rows[h].stamped)
  }

  ghost predicate SnapshotsSound(w: World, s: State, short: string)
    requires WorldOk(w)
  {
    forall k :: InWorld(w, short, k) ==> SnapshotSound(w, s, short, k)
  }

  ghost predicate ArtifactInv(w: World, s: State, short: string)
    requires WorldOk(w)
  {
    TablesOk(Part(s.tables, short)) && SnapshotsSound(w, s, short)
  }

  /** Runs that succeeded stay recorded as such. */
  predicate SuccessesStay(s: State, s': State) {
    forall run :: run in s.runs && s.runs[run] == Success ==> run in s'.runs && s'.runs[run] == Success
  }

  /** No row of the artifact becomes ready. */
  ghost predicate NoneReadied(w: World, s: State, s': State, short: string) {
    forall k :: InWorld(w, short, k) && IsReady(s', OwnHandle(short, k)) ==>
      IsReady(s, OwnHandle(short, k)) && s'.rows[OwnHandle(short, k)] == s.rows[OwnHandle(short, k)]
  }

  lemma WholeCarries(w: World, s: State, s': State, t: Tables, t': Tables, short: string, k: nat)
    requires WorldOk(w) && InWorld(w, short, k) && SuccessesStay(s, s') && SameSnapshot(t, t', OwnHandle(short, k))
    ensures Whole(w, s, t, short, k) ==> Whole(w, s', t', short, k)
  {
    hide OwnRecords, OwnHandle, Complete, SameSnapshot, WorldOk, InWorld, Blank;
    SameSnapshotCarries(t, t', OwnHandle(short, k));
    if run :| WholeBy(w, s, t, short, k, run) {
      assert WholeBy(w, s', t', short, k, run);
    }
  }

  lemma SameAsItself(t: Tables, f: Handle)
    ensures SameSnapshot(t, t, f)
  {
    hide RowsOf, SourcesIn, Owned;
    forall id ensures Owned(t.entities, f, id) ==> id in t.entities {
      OwnedIn(t.entities, f, id);
    }
  }

  /** A snapshot that is the same in the tables, of a function that does not become ready, stays sound. */
  lemma SoundCarries(w: World, s: State, s': State, short: string, k: nat)
    requires WorldOk(w) && InWorld(w, short, k) && SnapshotSound(w, s, short, k) && SuccessesStay(s, s')
    requires SameSnapshot(Part(s.tables, short), Part(s'.tables, short), OwnHandle(short, k))
    requires IsReady(s', OwnHandle(short, k)) ==>
               IsReady(s, OwnHandle(short, k)) && s'.rows[OwnHandle(short, k)] == s.rows[OwnHandle(short, k)]
    ensures SnapshotSound(w, s', short, k)
  {
    hide OwnHandle, Whole, SameSnapshot, WorldOk, Part, Blank, SuccessesStay;
    SameSnapshotCarries(Part(s.tables, short), Part(s'.tables, short), OwnHandle(short, k));
    WholeCarries(w, s, s', Part(s.tables, short), Part(s'.tables, short), short, k);
  }

  lemma SoundAt(w: World, s: State, short: string, k: nat)
    requires WorldOk(w) && ArtifactInv(w, s, short) && InWorld(w, short, k)
    ensures SnapshotSound(w, s, short, k)
  {
    hide SnapshotSound, InWorld, TablesOk;
  }

  /** Snapshots depend only on the artifact's rows in the tables, the outcome of ended runs, and which rows are ready. */
  lemma SnapshotsCarry(w: World, s: State, s': State, short: string)
    requires WorldOk(w) && ArtifactInv(w, s, short) && Part(s'.tables, short) == Part(s.tables, short)
    requires SuccessesStay(s, s') && NoneReadied(w, s, s', short)
    ensures ArtifactInv(w, s', short)
  {
    hide OwnHandle, SnapshotSound, SameSnapshot, WorldOk, Part, TablesOk, SuccessesStay;
    forall k: nat | InWorld(w, short, k) ensures SnapshotSound(w, s', short, k) {
      SoundAt(w, s, short, k);
      SameAsItself(Part(s.tables, short), OwnHandle(short, k));
      SoundCarries(w, s, s', short, k);
    }
  }

  lemma NothingStored(short: string)
    ensures TablesOk(Part(EMPTY_TABLES, short)) && forall h :: Blank(Part(EMPTY_TABLES, short), h)
  {
  }

  lemma InitArtifact(w: World, s: State, short: string)
    requires WorldOk(w) && Init(s)
    ensures ArtifactInv(w, s, short)
  {
    hide OwnHandle, WorldOk, Part, Blank, TablesOk, InWorld;
    NothingStored(short);
  }

  // ---- Commits -----------------------------------------------------------------------------------------------

  /** A process works on a definition, and in a faithful module a definition is found by its key. */
  lemma OwnOutput(w: World, s: State, p: Process)
    requires Inv(w, s) && WorldOk(w) && p in s.processes && s.processes[p].Working?
    requires InWorld(w, s.processes[p].short, s.processes[p].k) && Faithful(w.artifacts[s.processes[p].short])
    ensures var l := s.processes[p];
            && IsShort(l.short) && WellFormed(w.artifacts[l.short], w.artifacts[l.short].functions[l.k])
            && Output(w, l.short, l.k) == OwnRecords(w, l.short, l.k)
  {
    hide Output, Inv, Graph, WellFormed, Select, WorldOk;
    WorksOnDefinition(w, s, p);
    var l := s.processes[p];
    var j := OutputIsGraph(w, l.short, l.k);
  }

  lemma PartCatalogued(t: Tables, short: string, m: Module)
    requires Catalogued(t, short, m) && IsShort(short)
    ensures Catalogued(Part(t, short), short, m)
  {
    hide EntityId, Render, Home;
    forall n | 0 <= n < |m.functions| ensures EntityId(short, Render(FunctionOf(n))) in Part(t, short).entities {
      HomeOfId(short, Render(FunctionOf(n)));
    }
  }

  /** The artifact's rows after a commit of its own function. */
  lemma OwnCommit(t: Tables, short: string, m: Module, k: nat, run: string)
    requires Separate(t) && TablesOk(Part(t, short)) && IsShort(short) && Catalogued(t, short, m)
    requires k < |m.functions| && WellFormed(m, m.functions[k])
    ensures var h, rs := OwnHandle(short, k), EmittedAll(Graph(m, k));
            && Replaced(t, short, h, rs, run).Ok?
            && var t' := Part(Replaced(t, short, h, rs, run).value, short);
            && TablesOk(t') && Complete(t', short, h, rs, run)
            && forall g :: g != h ==> SameSnapshot(Part(t, short), t', g)
  {
    hide Graph, WellFormed, EmittedAll, Catalogued, Part, TablesOk, Separate, Replaced, Complete, SameSnapshot, OwnHandle,
         IsShort, Home, Setting, Fitting;
    var h, rs, key, own := OwnHandle(short, k), EmittedAll(Graph(m, k)), FunctionKey(k), Part(t, short);
    PartCatalogued(t, short, m);
    OwnIsFunctionHandle(short, k);
    AdapterRecordsGood(own, short, m, k);
    SettingFits(own, short, key, h, rs);
    AfterParts(own, short, key, h, rs, run);
    OwnHandleHome(short, k);
    ReplacedPart(t, short, h, rs, run, short);
    TablesStayOk(own, short, key, h, rs, run);
    CommitCompletes(own, short, key, h, rs, run);
    forall g | g != h ensures SameSnapshot(own, After(own, short, h, rs, run), g) {
      CommitSpares(own, short, key, h, rs, run, g);
    }
  }

  lemma OwnIsFunctionHandle(short: string, k: nat)
    ensures OwnHandle(short, k) == FunctionHandle(short, FunctionKey(k))
  {
  }

  /** A run that was still going on ends. */
  lemma RunEnds(s: State, s': State, run: string, outcome: RunStatus)
    requires run in s.runs && s.runs[run] == Running && s'.runs == s.runs[run := outcome]
    ensures SuccessesStay(s, s')
  {
  }

  /** Committing in the artifact itself. */
  lemma CommitHere(w: World, s: State, p: Process)
    requires Inv(w, s) && WorldOk(w) && p in s.processes && s.processes[p].Working?
    requires InWorld(w, s.processes[p].short, s.processes[p].k) && Faithful(w.artifacts[s.processes[p].short])
    requires ArtifactInv(w, s, s.processes[p].short)
    ensures ArtifactInv(w, AfterCommit(w, s, p), s.processes[p].short)
  {
    hide Graph, WellFormed, EmittedAll, Catalogued, Part, TablesOk, Separate, Replaced, Complete, SameSnapshot, OwnHandle,
         IsShort, Home, Output, Faithful, Blank, WorldOk, Sensible, ClaimsConsistent, WorkersConsistent, CatalogsComplete,
         RowsNamed, Typed, Keyed, SnapshotSound, SuccessesStay;
    var l, s' := s.processes[p], AfterCommit(w, s, p);
    OwnOutput(w, s, p);
    WorkingFacts(s, p);
    EntityHasRow(w, s, l.short, l.k);
    OwnCommit(s.tables, l.short, w.artifacts[l.short], l.k, l.run);
    RunEnds(s, s', l.run, Success);
    forall k: nat | InWorld(w, l.short, k) ensures SnapshotSound(w, s', l.short, k) {
      if k == l.k {
        assert WholeBy(w, s', Part(s'.tables, l.short), l.short, l.k, l.run);
        CommittedSound(w, s', l.short, k, l.run, s, OwnHandle(l.short, l.k));
      } else {
        if OwnHandle(l.short, k) == OwnHandle(l.short, l.k) {
          OwnHandleInjective(w, l.short, k, l.short, l.k);
        }
        SoundAt(w, s, l.short, k);
        SoundCarries(w, s, s', l.short, k);
      }
    }
  }

  /** The committed function is sound: it is ready by this commit, or it was ready before and stamped. */
  lemma CommittedSound(w: World, s': State, short: string, k: nat, run: string, s: State, h: Handle)
    requires WorldOk(w) && InWorld(w, short, k) && h == OwnHandle(short, k)
    requires WholeBy(w, s', Part(s'.tables, short), short, k, run)
    requires ArtifactInv(w, s, short)
    requires s'.rows == s.rows || s'.rows == s.rows[h := Row(StructureReady, None, None, Some(run), true)]
    ensures SnapshotSound(w, s', short, k)
  {
    hide OwnHandle, WholeBy, WorldOk, Part, Blank, TablesOk, InWorld;
    SoundAt(w, s, short, k);
    assert Whole(w, s', Part(s'.tables, short), short, k);
  }

  /** Committing in another artifact. */
  lemma CommitThere(w: World, s: State, p: Process, short: string)
    requires Inv(w, s) && WorldOk(w) && p in s.processes && s.processes[p].Working?
    requires InWorld(w, s.processes[p].short, s.processes[p].k) && short != s.processes[p].short
    requires short in w.artifacts && ArtifactInv(w, s, short)
    ensures ArtifactInv(w, AfterCommit(w, s, p), short)
  {
    hide ArtifactInv, Part, Keyed, Separate, Replaced, OwnHandle, IsShort, Home, Output, WorldOk, Sensible, ClaimsConsistent,
         WorkersConsistent, CatalogsComplete, RowsNamed, Typed, SuccessesStay;
    var l, s' := s.processes[p], AfterCommit(w, s, p);
    var h := OwnHandle(l.short, l.k);
    WorkingFacts(s, p);
    CommitTables(w, s, p);
    WorldShort(w, l.short);
    OwnHandleHome(l.short, l.k);
    ReplacedPart(s.tables, l.short, h, Output(w, l.short, l.k), l.run, short);
    RunEnds(s, s', l.run, Success);
    forall k: nat | InWorld(w, short, k) ensures OwnHandle(short, k) != h {
      if OwnHandle(short, k) == h {
        OwnHandleInjective(w, short, k, l.short, l.k);
      }
    }
    SnapshotsCarry(w, s, s', short);
  }

  // ---- Catalogs ----------------------------------------------------------------------------------------------

  lemma EntityPart(es: map<Handle, EntityRow>, short: string, n: nat, f: Function)
    requires IsShort(short)
    ensures CataloguedEntity(PartEntities(es, short), short, n, f) == CataloguedEntity(es, short, n, f)
  {
    hide EntityId, Home, PartEntities, Render;
    PartHas(es, short, Render(FunctionOf(n)));
  }

  /** Cataloguing acts on the rows of its own artifact. */
  lemma {:induction false} CataloguedPart(es: map<Handle, EntityRow>, short: string, m: Module, n: nat, a: string)
    requires IsShort(short) && n <= |m.functions|
    ensures PartEntities(CataloguedEntities(es, short, m, n), a) ==
            if a == short then CataloguedEntities(PartEntities(es, short), short, m, n) else PartEntities(es, a)
  {
    hide EntityId, Home, PartEntities, Render, CataloguedEntity, IsShort;
    if n > 0 {
      CataloguedPart(es, short, m, n - 1, a);
      CataloguedPart(es, short, m, n - 1, short);
      var before := CataloguedEntities(es, short, m, n - 1);
      EntityPart(before, short, n - 1, m.functions[n - 1]);
      HomeOfId(short, Render(FunctionOf(n - 1)));
      PartUpdate(before, EntityId(short, Render(FunctionOf(n - 1))),
                 CataloguedEntity(before, short, n - 1, m.functions[n - 1]), a);
    }
  }

  /** Functions own nothing and are owned by nobody, so cataloguing them touches no snapshot. */
  lemma CatalogSpares(t: Tables, short: string, m: Module, n: nat, f: Handle)
    requires Keyed(t.entities) && IsShort(short) && n <= |m.functions|
    ensures SameSnapshot(t, t.(entities := CataloguedEntities(t.entities, short, m, n)), f)
  {
    hide Keyed, CataloguedEntities, IsShort, RowsOf, SourcesIn;
    var t' := t.(entities := CataloguedEntities(t.entities, short, m, n));
    forall id
      ensures Owned(t.entities, f, id) <==> Owned(t'.entities, f, id)
      ensures Owned(t.entities, f, id) ==> id in t.entities && id in t'.entities && t'.entities[id] == t.entities[id]
    {
      CatalogOwned(t.entities, short, m, n, f, id);
    }
    SourcesSame(t.entities, t'.entities, f, t.sources);
  }

  lemma CatalogOwned(es: map<Handle, EntityRow>, short: string, m: Module, n: nat, f: Handle, id: Handle)
    requires Keyed(es) && IsShort(short) && n <= |m.functions|
    ensures var after := CataloguedEntities(es, short, m, n);
            && (Owned(es, f, id) <==> Owned(after, f, id))
            && (Owned(es, f, id) ==> id in after && after[id] == es[id])
  {
    hide KeyOk, RowOk, CataloguedEntities, OwnHandle, EntityId, Render;
    CataloguedAt(es, short, m, n, id);
    if id in CataloguedEntities(es, short, m, n) {
      CatalogRowOk(es, short, m, n, id);
    }
    if id in es && OneOf(short, n, id) {
      var j: nat :| j < n && id == OwnHandle(short, j);
      OwnHandleText(short, j);
      FunctionKept(es, f, short, j);
    }
  }

  lemma {:induction false} SourcesSame(a: map<Handle, EntityRow>, b: map<Handle, EntityRow>, f: Handle,
                                       rows: seq<SourceRow>)
    requires forall id :: Owned(a, f, id) <==> Owned(b, f, id)
    ensures SourcesIn(b, f, rows) == SourcesIn(a, f, rows)
  {
    hide Owned;
    if rows != [] {
      SourcesSame(a, b, f, rows[..|rows| - 1]);
    }
  }

  lemma PartKeyed(t: Tables, a: string)
    requires Keyed(t.entities)
    ensures Keyed(Part(t, a).entities)
  {
    hide KeyOk, Home;
  }

  /** The artifact's rows after its own catalog, or another one's. */
  lemma CatalogPart(t: Tables, short: string, m: Module, a: string)
    requires Orderly(t) && IsShort(short) && TablesOk(Part(t, a))
    ensures var t' := t.(entities := CataloguedEntities(t.entities, short, m, |m.functions|));
            && TablesOk(Part(t', a)) && (a != short ==> Part(t', a) == Part(t, a))
            && forall f :: SameSnapshot(Part(t, a), Part(t', a), f)
  {
    hide Keyed, Separate, TablesOk, SameSnapshot, CataloguedEntities, IsShort, PartEntities, PartRelations, PartSources,
         PartCapabilities;
    var n := |m.functions|;
    CataloguedPart(t.entities, short, m, n, a);
    var own := Part(t, a);
    if a == short {
      PartKeyed(t, a);
      CatalogTables(own, short, m, n);
      forall f ensures SameSnapshot(own, own.(entities := CataloguedEntities(own.entities, short, m, n)), f) {
        CatalogSpares(own, short, m, n, f);
      }
    } else {
      forall f ensures SameSnapshot(own, own, f) {
        SameAsItself(own, f);
      }
    }
  }

  /** A row that is still ready was not touched by the catalog. */
  lemma CatalogReady(w: World, s: State, p: Process, h: Handle)
    requires p in s.processes && s.processes[p].Reading? && s.processes[p].short in w.artifacts
    ensures IsReady(AfterCatalogCommit(w, s, p), h) ==>
              IsReady(s, h) && AfterCatalogCommit(w, s, p).rows[h] == s.rows[h]
  {
    hide OwnHandle, CataloguedEntities, ResetRows;
    var l := s.processes[p];
    var m := w.artifacts[l.short];
    ResetRowsAt(s.rows, l.short, m, |m.functions|, h);
  }

  lemma CatalogCommitArtifact(w: World, s: State, p: Process, short: string)
    requires Inv(w, s) && WorldOk(w) && p in s.processes && s.processes[p].Reading?
    requires s.processes[p].short in w.artifacts && short in w.artifacts && ArtifactInv(w, s, short)
    ensures ArtifactInv(w, AfterCatalogCommit(w, s, p), short)
  {
    hide Part, Orderly, OwnHandle, IsShort, WorldOk, Sensible, ClaimsConsistent, WorkersConsistent, CatalogsComplete,
         RowsNamed, Typed, SuccessesStay, CataloguedEntities, ResetRows, SameSnapshot, SnapshotSound, TablesOk, InWorld,
         IsReady;
    var l, s' := s.processes[p], AfterCatalogCommit(w, s, p);
    ReadingFacts(s, p);
    RunEnds(s, s', l.run, Success);
    WorldShort(w, l.short);
    CatalogPart(s.tables, l.short, w.artifacts[l.short], short);
    forall k: nat | InWorld(w, short, k) ensures SnapshotSound(w, s', short, k) {
      SoundAt(w, s, short, k);
      CatalogReady(w, s, p, OwnHandle(short, k));
      SoundCarries(w, s, s', short, k);
    }
  }

  // ---- Every step and every run ------------------------------------------------------------------------------

  /** Steps that touch neither the tables nor an ended run, and make no row ready. */
  lemma QuietStep(w: World, s: State, a: Action, short: string)
    requires Inv(w, s) && WorldOk(w) && Sensible(w, s) && Enabled(w, s, a) && !a.Commit? && !a.CatalogCommit?
    ensures var s' := Apply(w, s, a);
            s'.tables == s.tables && SuccessesStay(s, s') &&
            forall h :: IsReady(s', h) ==> IsReady(s, h) && s'.rows[h] == s.rows[h]
  {
    hide OwnHandle, Inv, WorldOk, InWorld, AfterCommit, AfterCatalogCommit, CacheCurrent, Sensible, Takeable,
         CatalogTakeable;
    EndingRun(w, s, a);
  }

  /** A run that ends has not ended before. */
  lemma EndingRun(w: World, s: State, a: Action)
    requires Inv(w, s) && Enabled(w, s, a)
    ensures a.Fail? ==> s.processes[a.p].run in s.runs && s.runs[s.processes[a.p].run] == Running
    ensures a.CatalogFail? ==> s.processes[a.p].run in s.runs && s.runs[s.processes[a.p].run] == Running
  {
    hide OwnHandle, WorldOk, InWorld, Orderly, ClaimsConsistent, WorkersConsistent, CatalogsComplete, RowsNamed, Typed,
         Sensible;
    if a.Fail? {
      WorkingFacts(s, a.p);
    } else if a.CatalogFail? {
      ReadingFacts(s, a.p);
    }
  }

  lemma StepArtifact(w: World, s: State, a: Action, short: string)
    requires Inv(w, s) && WorldOk(w) && Sensible(w, s) && Enabled(w, s, a)
    requires short in w.artifacts && Faithful(w.artifacts[short]) && ArtifactInv(w, s, short)
    ensures ArtifactInv(w, Apply(w, s, a), short)
  {
    hide OwnHandle, Inv, WorldOk, InWorld, AfterCommit, AfterCatalogCommit, AfterCheck, AfterClaim, AfterFail,
         AfterCatalogClaim, AfterCatalogFail, ArtifactInv, Faithful, SuccessesStay, Part, IsReady;
    match a {
      case Commit(p) =>
        WorksInWorld(w, s, p);
        if s.processes[p].short == short {
          CommitHere(w, s, p);
        } else {
          CommitThere(w, s, p, short);
        }
      case CatalogCommit(p) =>
        CatalogCommitArtifact(w, s, p, short);
      case _ =>
        QuietStep(w, s, a, short);
        SnapshotsCarry(w, s, Apply(w, s, a), short);
    }
  }

  lemma WorksInWorld(w: World, s: State, p: Process)
    requires Sensible(w, s) && p in s.processes && s.processes[p].Working?
    ensures InWorld(w, s.processes[p].short, s.processes[p].k)
  {
    hide InWorld;
  }

  lemma InvParts(w: World, s: State)
    requires Inv(w, s)
    ensures WorldOk(w) && Sensible(w, s) && Orderly(s.tables)
  {
    hide OwnHandle, Orderly, InWorld, CatalogsComplete, RowsNamed, ClaimsConsistent, WorldOk, WorkersConsistent, Typed,
         Sensible;
  }

  /** Every state of every run keeps the snapshots of every faithful artifact sound. */
  lemma {:induction false} ReachedArtifact(w: World, states: seq<State>, actions: seq<Action>, i: nat, short: string)
    requires Execution(w, states, actions) && i < |states|
    requires short in w.artifacts && Faithful(w.artifacts[short])
    ensures WorldOk(w) && Inv(w, states[i]) && ArtifactInv(w, states[i], short)
  {
    hide Inv, Apply, Init, Enabled, WorldOk, Faithful, ArtifactInv;
    Reached(w, states, actions, i);
    if i == 0 {
      InitArtifact(w, states[0], short);
    } else {
      ReachedArtifact(w, states, actions, i - 1, short);
      InvParts(w, states[i - 1]);
      StepArtifact(w, states[i - 1], actions[i - 1], short);
    }
  }
}
