/** What the protocol promises its users, for any number of processes and every interleaving. */
module LeaseTheorems {
  import opened Wrappers
  import opened Keys
  import opened Records
  import opened Adapter
  import opened Snapshot
  import opened SnapshotProperties
  import opened SnapshotTheorems
  import opened SnapshotContent
  import opened Partition
  import opened EndToEnd
  import opened Namesakes
  import opened Leases
  import opened LeaseProperties
  import opened LeaseSafety
  import opened LeaseSnapshots
  import R = Relations

  // ---- Safety ------------------------------------------------------------------------------------------------

  /** The whole snapshot of the function is in the tables, and every row of it carries this one successful run. */
  ghost predicate OneRun(w: World, s: State, short: string, k: nat, run: string)
    requires WorldOk(w) && InWorld(w, short, k)
  {
    var h := OwnHandle(short, k);
    && WholeBy(w, s, s.tables, short, k, run)
    && (forall r :: r in s.tables.relations && r.functionId == Some(h) ==> r.run == run)
    && (forall x :: x in s.tables.sources && Owned(s.tables.entities, h, x.entity) ==> x.run == run)
    && (forall c :: (h, c) in s.tables.capabilities ==> s.tables.capabilities[(h, c)].run == run)
  }

  lemma {:induction false} SourcesInAt(es: map<Handle, EntityRow>, f: Handle, rows: seq<SourceRow>, x: SourceRow)
    ensures x in SourcesIn(es, f, rows) <==> x in rows && Owned(es, f, x.entity)
  {
    hide Owned;
    if rows != [] {
      var init, last := rows[..|rows| - 1], rows[|rows| - 1];
      SourcesInAt(es, f, init, x);
      assert rows == init + [last];
    }
  }

  lemma WholeIsOneRun(w: World, s: State, short: string, k: nat, run: string)
    requires WorldOk(w) && InWorld(w, short, k) && WholeBy(w, s, s.tables, short, k, run)
    ensures OneRun(w, s, short, k, run)
  {
    hide OwnHandle, OwnRecords, RowsOf, InWorld, WorldOk, RelationsOf, SourcesOf, SourcesIn, Owned, OwnsExactly,
         CONTRACT;
    var h := OwnHandle(short, k);
    forall r | r in s.tables.relations && r.functionId == Some(h) ensures r.run == run {
      RowsOfAt(h, s.tables.relations, r);
    }
    forall x | x in s.tables.sources && Owned(s.tables.entities, h, x.entity) ensures x.run == run {
      SourcesInAt(s.tables.entities, h, s.tables.sources, x);
    }
  }

  /** What is known of a function of a faithful artifact, told from all rows of the tables. */
  lemma KnownSnapshot(w: World, s: State, short: string, k: nat)
    requires WorldOk(w) && Inv(w, s) && InWorld(w, short, k) && ArtifactInv(w, s, short)
    ensures var h := OwnHandle(short, k);
            && (Blank(s.tables, h) || exists run :: OneRun(w, s, short, k, run))
            && (IsReady(s, h) ==> s.rows[h].stamped && exists run :: OneRun(w, s, short, k, run))
  {
    hide OwnHandle, Inv, Complete, OneRun, WorldOk, InWorld, Blank, ArtifactInv, Part, Home, Separate, Keyed,
         OwnRecords;
    InvParts(w, s);
    SoundAt(w, s, short, k);
    ShortInWorld(w, short, k);
    OwnHandleHome(short, k);
    SnapshotByPart(s.tables, OwnHandle(short, k));
    if run :| WholeBy(w, s, Part(s.tables, short), short, k, run) {
      assert WholeBy(w, s, s.tables, short, k, run);
      WholeIsOneRun(w, s, short, k, run);
    }
  }

  /** A function of a faithful artifact that is ready has a snapshot by one successful run, and is answered from the cache. */
  lemma ReadyIsSound(w: World, states: seq<State>, actions: seq<Action>, i: nat, short: string, k: nat)
    requires Execution(w, states, actions) && i < |states|
    requires InWorld(w, short, k) && Faithful(w.artifacts[short])
    ensures var s, h := states[i], OwnHandle(short, k);
            IsReady(s, h) ==> CacheCurrent(s, h) && exists run :: OneRun(w, s, short, k, run)
  {
    hide OwnHandle, Inv, Execution, OneRun, WorldOk, ManifestCurrent, CONTRACT, ArtifactInv, Faithful;
    ReachedArtifact(w, states, actions, i, short);
    var s := states[i];
    KnownSnapshot(w, s, short, k);
    if IsReady(s, OwnHandle(short, k)) {
      var run :| OneRun(w, s, short, k, run);
      OneRunIsCurrent(w, s, short, k, run);
    }
  }

  lemma OneRunIsCurrent(w: World, s: State, short: string, k: nat, run: string)
    requires WorldOk(w) && InWorld(w, short, k) && OneRun(w, s, short, k, run)
    ensures ManifestCurrent(s.tables, OwnHandle(short, k))
  {
    hide OwnHandle, OwnRecords, RowsOf, InWorld, WorldOk, RelationsOf, SourcesOf, SourcesIn, Owned, OwnsExactly,
         CertifiedBy, ManifestCurrent;
    CertifiedIsCurrent(s.tables, OwnHandle(short, k), run);
  }

  /** At every moment a function of a faithful artifact has no snapshot at all, or a whole one by a single run. */
  lemma NeverMixed(w: World, states: seq<State>, actions: seq<Action>, i: nat, short: string, k: nat)
    requires Execution(w, states, actions) && i < |states|
    requires InWorld(w, short, k) && Faithful(w.artifacts[short])
    ensures Blank(states[i].tables, OwnHandle(short, k)) || exists run :: OneRun(w, states[i], short, k, run)
  {
    hide OwnHandle, Inv, Execution, OneRun, WorldOk, Blank, ArtifactInv, Faithful;
    ReachedArtifact(w, states, actions, i, short);
    KnownSnapshot(w, states[i], short, k);
  }

  /** Whenever such a function is ready, the guards of its instructions are its control dependences. */
  lemma ReadyGuards(w: World, states: seq<State>, actions: seq<Action>, i: nat, short: string, k: nat, b: nat, n: nat)
    requires Execution(w, states, actions) && i < |states|
    requires InWorld(w, short, k) && Faithful(w.artifacts[short]) && IsReady(states[i], OwnHandle(short, k))
    requires b < |w.artifacts[short].functions[k].blocks|
    requires n < |w.artifacts[short].functions[k].blocks[b].instructions|
    ensures exists run :: run in states[i].runs && states[i].runs[run] == Success &&
                          GuardsExact(states[i].tables, short, w.artifacts[short], k, run, b, n)
  {
    hide Execution, OwnHandle, Inv, OneRun, WorldOk, ArtifactInv, Faithful, SnapshotStored, GuardsExact;
    ReachedArtifact(w, states, actions, i, short);
    KnownSnapshot(w, states[i], short, k);
    var run :| OneRun(w, states[i], short, k, run);
    OneRunIsStored(w, states[i], short, k, run);
    GuardsAreControlDependences(states[i].tables, short, w.artifacts[short], k, run, b, n);
  }

  lemma OneRunIsStored(w: World, s: State, short: string, k: nat, run: string)
    requires WorldOk(w) && Inv(w, s) && InWorld(w, short, k) && ArtifactInv(w, s, short) && OneRun(w, s, short, k, run)
    ensures SnapshotStored(s.tables, short, w.artifacts[short], k, run)
    ensures run in s.runs && s.runs[run] == Success
  {
    hide OwnHandle, Inv, Complete, WorldOk, Part, Home, Separate, Keyed, Graph, WellFormed, Scoped, SnapshotsSound,
         TablesOk;
    InvParts(w, s);
    FunctionOk(w, short, k);
    OwnHandleHome(short, k);
    OkIsScoped(Part(s.tables, short), OwnHandle(short, k));
    ScopedByPart(s.tables, OwnHandle(short, k));
  }

  lemma FunctionOk(w: World, short: string, k: nat)
    requires WorldOk(w) && InWorld(w, short, k)
    ensures IsShort(short) && WellFormed(w.artifacts[short], w.artifacts[short].functions[k])
  {
    hide WellFormed;
    assert w.artifacts[short].functions[k] in w.artifacts[short].functions;
  }

  // ---- Claims ------------------------------------------------------------------------------------------------

  /** Being materialized, having a claim owner and having a claim time are one thing. */
  lemma ClaimIsMaterializing(w: World, states: seq<State>, actions: seq<Action>, i: nat, h: Handle)
    requires Execution(w, states, actions) && i < |states| && h in states[i].rows
    ensures var row := states[i].rows[h];
            && (row.status == Materializing <==> row.claimOwner.Some?)
            && (row.status == Materializing <==> row.claimStarted.Some?)
            && (row.status == Materializing ==> row.claimStarted.value <= states[i].now)
  {
    hide Inv, Execution;
    Reached(w, states, actions, i);
    RowConsistentAt(w, states[i], h);
  }

  lemma RowConsistentAt(w: World, s: State, h: Handle)
    requires Inv(w, s) && h in s.rows
    ensures RowConsistent(s, s.rows[h])
  {
    hide OwnHandle, Orderly, InWorld, CatalogsComplete, RowsNamed, WorldOk, WorkersConsistent, Typed, RowConsistent,
         CatalogConsistent;
  }

  lemma WorkAt(w: World, s: State, p: Process)
    requires Inv(w, s) && p in s.processes
    ensures WorkConsistent(s, s.processes[p])
    ensures forall q :: q in s.processes && q != p ==> Apart(s.processes[p], s.processes[q])
  {
    hide OwnHandle, Orderly, InWorld, CatalogsComplete, RowsNamed, WorldOk, ClaimsConsistent, Typed, WorkConsistent,
         Apart;
  }

  /** The row is being materialized by process `p`. */
  predicate HoldsClaim(s: State, p: Process) {
    p in s.processes && s.processes[p].Working? &&
    Holds(s, OwnHandle(s.processes[p].short, s.processes[p].k), s.processes[p].owner)
  }

  /** At most one process holds the claim of a function. */
  lemma MutualExclusion(w: World, states: seq<State>, actions: seq<Action>, i: nat, p: Process, q: Process)
    requires Execution(w, states, actions) && i < |states| && HoldsClaim(states[i], p) && HoldsClaim(states[i], q)
    requires states[i].processes[p].short == states[i].processes[q].short
    requires states[i].processes[p].k == states[i].processes[q].k
    ensures p == q
  {
    hide OwnHandle, Inv, Execution, WorkConsistent;
    Reached(w, states, actions, i);
    WorkAt(w, states[i], p);
  }

  /** A claim is refused exactly when another one is held that is at most ten minutes old. */
  lemma BusyExact(w: World, states: seq<State>, actions: seq<Action>, i: nat, p: Process, owner: Owner, run: string)
    requires Execution(w, states, actions) && i < |states| && Enabled(w, states[i], Claim(p, owner, run))
    ensures var s := states[i];
            var h := OwnHandle(s.processes[p].short, s.processes[p].k);
            h in s.rows &&
            (AfterClaim(s, p, owner, run) == Go(s, p, Idle) <==>
             s.rows[h].status == Materializing && s.rows[h].claimStarted.Some? &&
             s.now - s.rows[h].claimStarted.value <= EXPIRY)
  {
    hide OwnHandle, Inv, Execution;
    Reached(w, states, actions, i);
    var s := states[i];
    WorkAt(w, s, p);
    var h := OwnHandle(s.processes[p].short, s.processes[p].k);
    RowConsistentAt(w, s, h);
    if ClaimSucceeds(s, h) {
      assert AfterClaim(s, p, owner, run).processes[p].Working?;
    }
  }

  // ---- Fencing -----------------------------------------------------------------------------------------------

  /** Nobody's row is held under this name. */
  ghost predicate Lost(s: State, owner: Owner) {
    forall h :: h in s.rows ==> s.rows[h].claimOwner != Some(owner)
  }

  /**
   * A commit always succeeds, whatever the module. Its final UPDATE changes the owner's row if the claim is held, and
   * else nothing, so the row names the run exactly if the claim was held.
   */
  lemma CommitFenced(w: World, s: State, p: Process)
    requires Inv(w, s) && WorldOk(w) && p in s.processes && s.processes[p].Working?
    requires InWorld(w, s.processes[p].short, s.processes[p].k)
    ensures var l, s' := s.processes[p], AfterCommit(w, s, p);
            var h := OwnHandle(l.short, l.k);
            && h in s.rows && s'.runs == s.runs[l.run := Success] && s'.owners == s.owners
            && s'.processes == s.processes[p := Idle]
            && s'.rows == (if s.rows[h].claimOwner == Some(l.owner)
                           then s.rows[h := Row(StructureReady, None, None, Some(l.run), true)] else s.rows)
            && (s'.rows[h].run == Some(l.run) <==> s.rows[h].claimOwner == Some(l.owner))
  {
    hide Output, OwnHandle, WorldOk, InWorld, Replaced, Inv, Orderly;
    CommitTables(w, s, p);
    WorkAt(w, s, p);
  }

  /** Whatever the module, a commit stores the graph of the function that the key selects, with the contract's manifest. */
  lemma CommitGraph(w: World, s: State, p: Process) returns (j: nat)
    requires Inv(w, s) && WorldOk(w) && p in s.processes && s.processes[p].Working?
    requires InWorld(w, s.processes[p].short, s.processes[p].k)
    ensures var l, t' := s.processes[p], AfterCommit(w, s, p).tables;
            var h, m := OwnHandle(l.short, l.k), w.artifacts[l.short];
            && Select(m, FunctionKey(l.k)) == Some(j) && j <= l.k && WellFormed(m, m.functions[j])
            && t' == After(s.tables, l.short, h, EmittedAll(Graph(m, j)), l.run)
            && RowsOf(h, t'.relations) == GraphRows(l.short, h, m, j, l.run)
            && CertifiedBy(t'.capabilities, h, l.run)
            && Keyed(s.tables.entities) && IsShort(l.short) && Catalogued(s.tables, l.short, m)
  {
    hide OwnHandle, WorldOk, Inv, Graph, EmittedAll, WellFormed, Select, Catalogued, Replaced, Output, RowsOf,
         RelationsOf, Keyed, Separate, IsShort, GraphRows, CertifiedBy, Fitting;
    var l := s.processes[p];
    var h, m := OwnHandle(l.short, l.k), w.artifacts[l.short];
    CommitTables(w, s, p);
    InvParts(w, s);
    WorkAt(w, s, p);
    EntityHasRow(w, s, l.short, l.k);
    j := OutputIsGraph(w, l.short, l.k);
    AnyCommit(s.tables, l.short, m, j, h, l.run);
    AfterCertified(s.tables, l.short, FunctionKey(j), h, EmittedAll(Graph(m, j)), l.run);
  }

  /** The manifest after any commit. */
  lemma AfterCertified(t: Tables, short: string, key: string, f: Handle, rs: seq<Record<string>>, run: string)
    requires Fitting(t, short, key, rs)
    ensures CertifiedBy(After(t, short, f, rs, run).capabilities, f, run)
    ensures forall g :: g != f && ManifestCurrent(t, g) ==> ManifestCurrent(After(t, short, f, rs, run), g)
  {
    hide After, Fitting, Certified, CONTRACT;
    CommitCertifies(t, short, key, f, rs, run);
    AfterParts(t, short, key, f, rs, run);
    forall g: Handle, c: string | g != f
      ensures var caps, after := t.capabilities, After(t, short, f, rs, run).capabilities;
              ((g, c) in after <==> (g, c) in caps) && ((g, c) in after ==> after[(g, c)] == caps[(g, c)])
    {
      CertifiedAt(t.capabilities, f, run, g, c);
    }
    forall g | g != f && ManifestCurrent(t, g) ensures ManifestCurrent(After(t, short, f, rs, run), g) {
      var caps, after := t.capabilities, After(t, short, f, rs, run).capabilities;
      assert forall c :: (g, c) in after <==> (g, c) in caps;
      forall x | x in after && x.0 == g ensures x.1 in CONTRACT {
        assert x == (g, x.1);
      }
    }
  }

  lemma CertifiedIsCurrent(t: Tables, h: Handle, run: string)
    requires CertifiedBy(t.capabilities, h, run)
    ensures ManifestCurrent(t, h)
  {
    hide CONTRACT;
    forall x | x in t.capabilities && x.0 == h ensures x.1 in CONTRACT {
      assert x == (h, x.1);
    }
  }

  /** All relation rows of the function are then by the committing run. */
  lemma CommitRows(w: World, s: State, p: Process, x: R.Relation)
    requires Inv(w, s) && WorldOk(w) && p in s.processes && s.processes[p].Working?
    requires InWorld(w, s.processes[p].short, s.processes[p].k)
    requires x in AfterCommit(w, s, p).tables.relations
    requires x.functionId == Some(OwnHandle(s.processes[p].short, s.processes[p].k))
    ensures x.run == s.processes[p].run
  {
    hide OwnHandle, WorldOk, Inv, Graph, EmittedAll, WellFormed, Select, Catalogued, RowsOf, RelationsOf, Keyed,
         IsShort, AfterCommit, CertifiedBy, After;
    var l := s.processes[p];
    var j := CommitGraph(w, s, p);
    RowsOfAt(OwnHandle(l.short, l.k), AfterCommit(w, s, p).tables.relations, x);
  }

  /** So after a commit that stores rows, the row and all of them name the same run if and only if the claim was held. */
  lemma CommitNamesItsRun(w: World, s: State, p: Process)
    requires Inv(w, s) && WorldOk(w) && p in s.processes && s.processes[p].Working?
    requires InWorld(w, s.processes[p].short, s.processes[p].k)
    requires var s' := AfterCommit(w, s, p);
             RowsOf(OwnHandle(s.processes[p].short, s.processes[p].k), s'.tables.relations) != []
    ensures var l, s' := s.processes[p], AfterCommit(w, s, p);
            var h := OwnHandle(l.short, l.k);
            h in s'.rows &&
            (HoldsClaim(s, p) <==>
             forall r :: r in s'.tables.relations && r.functionId == Some(h) ==> s'.rows[h].run == Some(r.run))
  {
    hide OwnHandle, WorldOk, Inv, AfterCommit, RowsOf, InWorld;
    var l, s' := s.processes[p], AfterCommit(w, s, p);
    var h := OwnHandle(l.short, l.k);
    CommitFenced(w, s, p);
    forall r | r in s'.tables.relations && r.functionId == Some(h) ensures r.run == l.run {
      CommitRows(w, s, p, r);
    }
    var x := RowsOf(h, s'.tables.relations)[0];
    RowsOfAt(h, s'.tables.relations, x);
  }

  /** In a faithful artifact the committed snapshot is whole, also without the claim. */
  lemma CommitIsWhole(w: World, s: State, p: Process)
    requires Inv(w, s) && WorldOk(w) && p in s.processes && s.processes[p].Working?
    requires InWorld(w, s.processes[p].short, s.processes[p].k) && Faithful(w.artifacts[s.processes[p].short])
    requires ArtifactInv(w, s, s.processes[p].short)
    ensures var l := s.processes[p];
            OneRun(w, AfterCommit(w, s, p), l.short, l.k, l.run)
  {
    hide OwnHandle, Inv, WorldOk, ArtifactInv, Faithful, Complete, OneRun, Part, Home, Separate, Keyed, Output,
         Replaced, Graph, WellFormed, TablesOk, SameSnapshot, IsShort, Catalogued, SnapshotSound;
    var l, s' := s.processes[p], AfterCommit(w, s, p);
    OwnOutput(w, s, p);
    InvParts(w, s);
    CommitFenced(w, s, p);
    EntityHasRow(w, s, l.short, l.k);
    PartIsOk(w, s, l.short);
    OwnCommit(s.tables, l.short, w.artifacts[l.short], l.k, l.run);
    CommitSound(w, s, p);
    InvParts(w, s');
    OwnHandleHome(l.short, l.k);
    SnapshotByPart(s'.tables, OwnHandle(l.short, l.k));
    WholeIsOneRun(w, s', l.short, l.k, l.run);
  }

  lemma PartIsOk(w: World, s: State, short: string)
    requires WorldOk(w) && ArtifactInv(w, s, short)
    ensures TablesOk(Part(s.tables, short))
  {
    hide TablesOk, SnapshotsSound;
  }

  lemma FailFenced(w: World, s: State, p: Process)
    requires Inv(w, s) && p in s.processes && s.processes[p].Working?
    ensures var l, s' := s.processes[p], AfterFail(s, p);
            var h := OwnHandle(l.short, l.k);
            && h in s.rows && s'.tables == s.tables && s'.runs == s.runs[l.run := RunFailed]
            && s'.rows == (if s.rows[h].claimOwner == Some(l.owner)
                           then s.rows[h := s.rows[h].(status := Failed, claimOwner := None, claimStarted := None)]
                           else s.rows)
  {
    hide OwnHandle, Inv;
    WorkAt(w, s, p);
  }

  predicate WorkConsistentInWorld(w: World, s: State, p: Process) {
    p in s.processes && s.processes[p].Working? && InWorld(w, s.processes[p].short, s.processes[p].k)
  }

  lemma SensibleAt(w: World, s: State, p: Process)
    requires Sensible(w, s) && p in s.processes && s.processes[p].Working?
    ensures WorkConsistentInWorld(w, s, p)
  {
    hide InWorld;
  }

  lemma LostCommit(w: World, s: State, p: Process, owner: Owner)
    requires Inv(w, s) && WorkConsistentInWorld(w, s, p) && owner in s.owners && Lost(s, owner)
    ensures WorldOk(w)
    ensures owner in AfterCommit(w, s, p).owners && Lost(AfterCommit(w, s, p), owner)
  {
    hide OwnHandle, Inv, WorldOk, InWorld, AfterCommit;
    InvParts(w, s);
    CommitFenced(w, s, p);
  }

  lemma LostCatalog(w: World, s: State, p: Process, owner: Owner)
    requires p in s.processes && s.processes[p].Reading? && s.processes[p].short in w.artifacts
    requires owner in s.owners && Lost(s, owner)
    ensures owner in AfterCatalogCommit(w, s, p).owners && Lost(AfterCatalogCommit(w, s, p), owner)
  {
    hide OwnHandle, ResetRows, CataloguedEntities, OneOf;
    var s', l := AfterCatalogCommit(w, s, p), s.processes[p];
    var m := w.artifacts[l.short];
    forall h | h in s'.rows ensures s'.rows[h].claimOwner != Some(owner) {
      ResetRowsAt(s.rows, l.short, m, |m.functions|, h);
    }
  }

  lemma LostOther(w: World, s: State, a: Action, owner: Owner)
    requires WorldOk(w) && Sensible(w, s) && Enabled(w, s, a) && !a.Commit? && !a.CatalogCommit?
    requires owner in s.owners && Lost(s, owner)
    ensures owner in Apply(w, s, a).owners && Lost(Apply(w, s, a), owner)
  {
    hide OwnHandle, WorldOk, InWorld, AfterCommit, AfterCatalogCommit, CacheCurrent, Sensible;
  }

  /** An owner that has lost its claim never gets one again. */
  lemma LostStep(w: World, s: State, a: Action, owner: Owner)
    requires Inv(w, s) && WorldOk(w) && Enabled(w, s, a) && owner in s.owners && Lost(s, owner)
    ensures owner in Apply(w, s, a).owners && Lost(Apply(w, s, a), owner)
  {
    hide OwnHandle, Inv, WorldOk, InWorld, AfterCommit, AfterCatalogCommit, AfterCheck, AfterClaim, AfterFail,
         AfterCatalogClaim, AfterCatalogFail, Lost, Orderly;
    InvParts(w, s);
    match a {
      case Commit(p) =>
        SensibleAt(w, s, p);
        LostCommit(w, s, p, owner);
      case CatalogCommit(p) =>
        LostCatalog(w, s, p, owner);
      case _ =>
        LostOther(w, s, a, owner);
    }
  }

  lemma {:induction false} LostForever(w: World, states: seq<State>, actions: seq<Action>, i: nat, j: nat, owner: Owner)
    requires Execution(w, states, actions) && i <= j < |states| && owner in states[i].owners && Lost(states[i], owner)
    ensures owner in states[j].owners && Lost(states[j], owner)
  {
    hide Inv, Apply, Init, Enabled, WorldOk, Lost;
    if i < j {
      LostForever(w, states, actions, i, j - 1, owner);
      Reached(w, states, actions, j - 1);
      InvParts(w, states[j - 1]);
      LostStep(w, states[j - 1], actions[j - 1], owner);
    }
  }

  /** A process preempted at moment `i` never again changes a row: not when it commits, not when it fails. */
  lemma Fenced(w: World, states: seq<State>, actions: seq<Action>, i: nat, j: nat, p: Process)
    requires Execution(w, states, actions) && i <= j < |actions|
    requires p in states[i].processes && states[i].processes[p].Working? && !HoldsClaim(states[i], p)
    requires p in states[j].processes && states[j].processes[p].Working?
    requires states[j].processes[p].owner == states[i].processes[p].owner
    requires actions[j] == Commit(p) || actions[j] == Fail(p)
    ensures states[j + 1].rows == states[j].rows
  {
    hide Inv, OwnHandle, AfterCommit, AfterFail, WorldOk, InWorld;
    var owner := states[i].processes[p].owner;
    Reached(w, states, actions, i);
    NotHeldIsLost(w, states[i], p);
    LostForever(w, states, actions, i, j, owner);
    Reached(w, states, actions, j);
    InvParts(w, states[j]);
    SensibleAt(w, states[j], p);
    if actions[j] == Commit(p) {
      CommitFenced(w, states[j], p);
    } else {
      FailFenced(w, states[j], p);
    }
  }

  lemma NotHeldIsLost(w: World, s: State, p: Process)
    requires Inv(w, s) && p in s.processes && s.processes[p].Working? && !HoldsClaim(s, p)
    ensures s.processes[p].owner in s.owners && Lost(s, s.processes[p].owner)
  {
    hide OwnHandle, Inv;
    WorkAt(w, s, p);
  }
}
