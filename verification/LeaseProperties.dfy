/** What every interleaving keeps, whatever the modules in the store: claims, processes, handles and catalogs. */
module LeaseProperties {
  import opened Wrappers
  import opened Keys
  import opened Records
  import opened Adapter
  import opened Snapshot
  import opened SnapshotProperties
  import opened Partition
  import opened EndToEnd
  import opened Namesakes
  import opened Leases

  // ---- The invariant -----------------------------------------------------------------------------------------

  /** A row says that it is being materialized exactly when somebody holds it, since some past moment. */
  predicate RowConsistent(s: State, row: Row) {
    && (row.status == Materializing <==> row.claimOwner.Some?)
    && (row.claimOwner.Some? <==> row.claimStarted.Some?)
    && (row.claimStarted.Some? ==> row.claimStarted.value <= s.now)
    && (row.claimOwner.Some? ==> row.claimOwner.value in s.owners)
    && (row.run.Some? ==> row.run.value in s.runs)
  }

  predicate CatalogConsistent(s: State, c: Catalog) {
    && (c.status == Cataloging <==> c.claimOwner.Some?)
    && (c.claimOwner.Some? <==> c.claimStarted.Some?)
    && (c.claimStarted.Some? ==> c.claimStarted.value <= s.now)
  }

  ghost predicate ClaimsConsistent(s: State) {
    && (forall h :: h in s.rows ==> RowConsistent(s, s.rows[h]))
    && (forall a :: a in s.catalogs ==> CatalogConsistent(s, s.catalogs[a]))
  }

  /** The run a process is responsible for. */
  function RunOf(l: Activity): Option<string> {
    match l
    case Working(_, _, _, run) => Some(run)
    case Reading(_, _, run) => Some(run)
    case _ => None
  }

  function ClaimantOf(l: Activity): Option<Owner> {
    match l
    case Working(_, _, owner, _) => Some(owner)
    case Reading(_, owner, _) => Some(owner)
    case _ => None
  }

  /** A working process can only hold the claim of its own, catalogued function, and its run has not ended. */
  predicate WorkConsistent(s: State, l: Activity) {
    && (ClaimantOf(l).Some? ==> ClaimantOf(l).value in s.owners)
    && (RunOf(l).Some? ==> RunOf(l).value in s.runs && s.runs[RunOf(l).value] == Running)
    && (l.Working? || l.Checked? ==> OwnHandle(l.short, l.k) in s.rows)
    && (ClaimantOf(l).Some? ==>
        forall h :: h in s.rows && s.rows[h].claimOwner == ClaimantOf(l) ==> l.Working? && h == OwnHandle(l.short, l.k))
    && (RunOf(l).Some? ==> forall h :: h in s.rows ==> s.rows[h].run != RunOf(l))
  }

  /** No two processes share a run or an owner. */
  predicate Apart(l: Activity, m: Activity) {
    RunOf(l).Some? ==> RunOf(l) != RunOf(m) && ClaimantOf(l) != ClaimantOf(m)
  }

  ghost predicate WorkersConsistent(s: State) {
    && (forall p :: p in s.processes ==> WorkConsistent(s, s.processes[p]))
    && (forall p, q :: p in s.processes && q in s.processes && p != q ==> Apart(s.processes[p], s.processes[q]))
  }

  /** A function has a row exactly when it has an entity, and then its whole module was catalogued. */
  ghost predicate CatalogsComplete(w: World, s: State) {
    forall short, k :: InWorld(w, short, k) ==>
      && (OwnHandle(short, k) in s.rows <==> OwnHandle(short, k) in s.tables.entities)
      && (OwnHandle(short, k) in s.rows ==> Catalogued(s.tables, short, w.artifacts[short]))
  }

  ghost predicate RowsNamed(w: World, s: State) {
    forall h :: h in s.rows ==> exists short, k :: InWorld(w, short, k) && h == OwnHandle(short, k)
  }

  /** Rows of declarations say so, and only they do. */
  ghost predicate RowsTyped(w: World, s: State) {
    forall short, k: nat :: InWorld(w, short, k) && OwnHandle(short, k) in s.rows ==>
      (s.rows[OwnHandle(short, k)].status == DeclarationOnly <==> w.artifacts[short].functions[k].declaration)
  }

  /** Only definitions are claimed. */
  predicate WorkTyped(w: World, l: Activity) {
    l.Checked? || l.Working? ==> InWorld(w, l.short, l.k) && !w.artifacts[l.short].functions[l.k].declaration
  }

  ghost predicate Typed(w: World, s: State) {
    RowsTyped(w, s) && forall p :: p in s.processes ==> WorkTyped(w, s.processes[p])
  }

  /** Handles tell keys, and no row joins two artifacts. */
  ghost predicate Orderly(t: Tables) {
    Keyed(t.entities) && Separate(t)
  }

  ghost predicate Inv(w: World, s: State) {
    && WorldOk(w) && Sensible(w, s) && Orderly(s.tables)
    && ClaimsConsistent(s) && WorkersConsistent(s) && CatalogsComplete(w, s) && RowsNamed(w, s) && Typed(w, s)
  }

  lemma OwnHandleInjective(w: World, a: string, j: nat, b: string, k: nat)
    requires WorldOk(w) && InWorld(w, a, j) && InWorld(w, b, k) && OwnHandle(a, j) == OwnHandle(b, k)
    ensures a == b && j == k
  {
    hide FunctionHandle;
    FunctionHandleInjective(a, FunctionKey(j), b, FunctionKey(k));
    FunctionKeyInjective(j, k);
  }

  // ---- Steps that leave the tables alone ---------------------------------------------------------------------

  lemma InitSound(w: World, s: State)
    requires WorldOk(w) && Init(s)
    ensures Inv(w, s)
  {
    hide WellFormed, Select, OwnHandle, KeyOk;
  }

  /** Types depend on which rows are those of declarations, and on what the processes work on. */
  lemma TypedCarry(w: World, s: State, s': State, p: Process, l: Activity)
    requires Typed(w, s) && WorkTyped(w, l) && s'.processes == s.processes[p := l]
    requires forall h :: h in s'.rows ==>
               h in s.rows && (s'.rows[h].status == DeclarationOnly <==> s.rows[h].status == DeclarationOnly)
    ensures Typed(w, s')
  {
    hide OwnHandle, InWorld;
  }

  /** Which rows and entities exist, and in which module, carries over when neither set changes. */
  lemma NamesCarry(w: World, s: State, s': State)
    requires CatalogsComplete(w, s) && RowsNamed(w, s)
    requires s'.rows.Keys == s.rows.Keys && s'.tables.entities == s.tables.entities
    ensures CatalogsComplete(w, s') && RowsNamed(w, s')
  {
    hide OwnHandle, InWorld, EntityId, Render;
    assert forall h :: h in s'.rows <==> h in s'.rows.Keys;
    assert forall h :: h in s.rows <==> h in s.rows.Keys;
    forall h | h in s'.rows ensures exists short, k :: InWorld(w, short, k) && h == OwnHandle(short, k) {
      assert h in s.rows;
    }
  }

  lemma ClaimsCarry(s: State, s': State)
    requires ClaimsConsistent(s) && s'.rows == s.rows && s'.catalogs == s.catalogs && s.now <= s'.now
    requires s'.owners == s.owners && s'.runs == s.runs
    ensures ClaimsConsistent(s')
  {
    forall h | h in s'.rows ensures RowConsistent(s', s'.rows[h]) {
      assert RowConsistent(s, s.rows[h]);
    }
    forall a | a in s'.catalogs ensures CatalogConsistent(s', s'.catalogs[a]) {
      assert CatalogConsistent(s, s.catalogs[a]);
    }
  }

  lemma GoWorkers(s: State, p: Process, l: Activity)
    requires WorkersConsistent(s) && (l.Idle? || (l.Checked? && OwnHandle(l.short, l.k) in s.rows))
    ensures WorkersConsistent(Go(s, p, l))
  {
    hide OwnHandle;
    var s' := Go(s, p, l);
    forall q | q in s'.processes ensures WorkConsistent(s', s'.processes[q]) {
      if q != p {
        assert WorkConsistent(s, s.processes[q]);
      }
    }
  }

  lemma GoSensible(w: World, s: State, p: Process, l: Activity)
    requires Sensible(w, s)
    requires match l
             case Idle => true
             case Checked(short, k) => InWorld(w, short, k)
             case Working(short, k, _, _) => InWorld(w, short, k)
             case Reading(short, _, _) => short in w.artifacts
    ensures Sensible(w, Go(s, p, l))
  {
    hide InWorld;
  }

  lemma GoSound(w: World, s: State, p: Process, l: Activity)
    requires Inv(w, s) && WorkTyped(w, l)
    requires l.Idle? || (l.Checked? && OwnHandle(l.short, l.k) in s.rows)
    ensures Inv(w, Go(s, p, l))
  {
    hide WorldOk, Orderly, InWorld, CatalogsComplete, RowsNamed, ClaimsConsistent, WorkersConsistent, Typed, Sensible;
    var s' := Go(s, p, l);
    NamesCarry(w, s, s');
    ClaimsCarry(s, s');
    GoWorkers(s, p, l);
    GoSensible(w, s, p, l);
    TypedCarry(w, s, s', p, l);
  }

  lemma IdleTyped(w: World)
    ensures WorkTyped(w, Idle)
  {
  }

  lemma TickSound(w: World, s: State, d: nat)
    requires Inv(w, s)
    ensures Inv(w, s.(now := s.now + d))
  {
    hide WorldOk, Orderly, InWorld, CatalogsComplete, RowsNamed, ClaimsConsistent, OwnHandle, WorkTyped;
    var s' := s.(now := s.now + d);
    NamesCarry(w, s, s');
    ClaimsCarry(s, s');
    forall p | p in s'.processes ensures WorkConsistent(s', s'.processes[p]) {
      assert WorkConsistent(s, s.processes[p]);
    }
  }

  lemma EntityHasRow(w: World, s: State, short: string, k: nat)
    requires Inv(w, s) && InWorld(w, short, k)
    ensures OwnHandle(short, k) in s.rows <==> OwnHandle(short, k) in s.tables.entities
    ensures OwnHandle(short, k) in s.rows ==> Catalogued(s.tables, short, w.artifacts[short])
  {
    hide OwnHandle, WorldOk, Orderly, InWorld, RowsNamed, ClaimsConsistent, WorkersConsistent, Sensible, Typed, Catalogued;
  }

  /** The row of a function tells whether it is a declaration. */
  lemma RowTells(w: World, s: State, short: string, k: nat)
    requires Inv(w, s) && InWorld(w, short, k) && OwnHandle(short, k) in s.rows
    ensures s.rows[OwnHandle(short, k)].status == DeclarationOnly <==> w.artifacts[short].functions[k].declaration
  {
    hide OwnHandle, WorldOk, Orderly, InWorld, CatalogsComplete, RowsNamed, ClaimsConsistent, WorkersConsistent, Sensible,
         WorkTyped;
  }

  lemma WorksOnDefinition(w: World, s: State, p: Process)
    requires Inv(w, s) && p in s.processes
    ensures WorkTyped(w, s.processes[p])
  {
    hide OwnHandle, WorldOk, Orderly, InWorld, CatalogsComplete, RowsNamed, ClaimsConsistent, WorkersConsistent, Sensible,
         RowsTyped, WorkTyped;
  }

  lemma CheckSound(w: World, s: State, p: Process, short: string, k: nat, refresh: bool)
    requires Inv(w, s) && InWorld(w, short, k)
    ensures Inv(w, AfterCheck(s, p, short, k, refresh))
  {
    hide Inv, OwnHandle, Go, CacheCurrent, InWorld;
    IdleTyped(w);
    GoSound(w, s, p, Idle);
    var h := OwnHandle(short, k);
    if h in s.tables.entities {
      EntityHasRow(w, s, short, k);
      RowTells(w, s, short, k);
      if s.rows[h].status != DeclarationOnly {
        GoSound(w, s, p, Checked(short, k));
      }
    }
  }

  // ---- Claim and failure -------------------------------------------------------------------------------------

  lemma ClaimClaims(s: State, p: Process, owner: Owner, run: string)
    requires ClaimsConsistent(s)
    requires p in s.processes && s.processes[p].Checked?
    requires ClaimSucceeds(s, OwnHandle(s.processes[p].short, s.processes[p].k))
    ensures ClaimsConsistent(AfterClaim(s, p, owner, run))
  {
    hide OwnHandle, Takeable, CatalogConsistent;
    var s' := AfterClaim(s, p, owner, run);
    forall a | a in s'.catalogs ensures CatalogConsistent(s', s'.catalogs[a]) {
      CatalogCarries(s, s', s.catalogs[a]);
    }
    forall h | h in s'.rows ensures RowConsistent(s', s'.rows[h]) {
      assert RowConsistent(s, s.rows[h]);
    }
  }

  lemma ClaimWorkers(s: State, p: Process, owner: Owner, run: string)
    requires ClaimsConsistent(s) && WorkersConsistent(s) && NewNames(s, owner, run)
    requires p in s.processes && s.processes[p].Checked?
    requires ClaimSucceeds(s, OwnHandle(s.processes[p].short, s.processes[p].k))
    ensures WorkersConsistent(AfterClaim(s, p, owner, run))
  {
    hide OwnHandle, Takeable, CatalogConsistent, WorkConsistent, Apart, RowConsistent;
    var s' := AfterClaim(s, p, owner, run);
    forall q | q in s'.processes ensures WorkConsistent(s', s'.processes[q]) {
      ClaimWorker(s, p, owner, run, q);
    }
    forall q, r | q in s'.processes && r in s'.processes && q != r ensures Apart(s'.processes[q], s'.processes[r]) {
      if q == p {
        NewApart(s, s.processes[r], owner, run, s'.processes[p]);
      } else if r == p {
        NewApart(s, s.processes[q], owner, run, s'.processes[p]);
      }
    }
  }

  lemma ClaimWorker(s: State, p: Process, owner: Owner, run: string, q: Process)
    requires ClaimsConsistent(s) && WorkersConsistent(s) && NewNames(s, owner, run)
    requires p in s.processes && s.processes[p].Checked? && q in s.processes
    requires ClaimSucceeds(s, OwnHandle(s.processes[p].short, s.processes[p].k))
    ensures var s' := AfterClaim(s, p, owner, run);
            WorkConsistent(s', s'.processes[q])
  {
    hide OwnHandle, Takeable, CatalogConsistent, Apart;
    assert forall h :: h in s.rows ==> RowConsistent(s, s.rows[h]);
    assert WorkConsistent(s, s.processes[q]);
  }

  /** Fresh names are apart from those in use. */
  lemma NewApart(s: State, l: Activity, owner: Owner, run: string, newcomer: Activity)
    requires NewNames(s, owner, run) && WorkConsistent(s, l)
    requires RunOf(newcomer) == Some(run) && ClaimantOf(newcomer) == Some(owner)
    ensures Apart(l, newcomer) && Apart(newcomer, l)
  {
    hide OwnHandle;
  }

  lemma CatalogCarries(s: State, s': State, c: Catalog)
    requires CatalogConsistent(s, c) && s.now <= s'.now
    ensures CatalogConsistent(s', c)
  {
  }

  lemma ClaimSound(w: World, s: State, p: Process, owner: Owner, run: string)
    requires Inv(w, s) && Enabled(w, s, Claim(p, owner, run))
    ensures Inv(w, AfterClaim(s, p, owner, run))
  {
    hide WorldOk, OwnHandle, Orderly, InWorld, CatalogsComplete, RowsNamed, Takeable, ClaimsConsistent,
         WorkersConsistent, Typed;
    var l := s.processes[p];
    WorksOnDefinition(w, s, p);
    if !ClaimSucceeds(s, OwnHandle(l.short, l.k)) {
      IdleTyped(w);
      GoSound(w, s, p, Idle);
    } else {
      var s' := AfterClaim(s, p, owner, run);
      RowTells(w, s, l.short, l.k);
      ClaimClaims(s, p, owner, run);
      ClaimWorkers(s, p, owner, run);
      assert s'.rows.Keys == s.rows.Keys;
      NamesCarry(w, s, s');
      TypedCarry(w, s, s', p, Working(l.short, l.k, owner, run));
    }
  }

  /** Ending one's own run and, while the claim is held, putting a released row in its place. */
  function Released(s: State, p: Process, outcome: RunStatus, row: Row): State
    requires p in s.processes && s.processes[p].Working?
  {
    var l := s.processes[p];
    var h := OwnHandle(l.short, l.k);
    var ended := s.(runs := s.runs[l.run := outcome]);
    Go(if Holds(s, h, l.owner) then ended.(rows := s.rows[h := row]) else ended, p, Idle)
  }

  predicate FreeRow(s: State, row: Row) {
    row.status != Materializing && row.claimOwner.None? && row.claimStarted.None? &&
    (row.run.Some? ==> row.run.value in s.runs)
  }

  lemma ReleaseClaims(s: State, p: Process, outcome: RunStatus, row: Row)
    requires ClaimsConsistent(s) && p in s.processes && s.processes[p].Working? && FreeRow(s, row)
    ensures ClaimsConsistent(Released(s, p, outcome, row))
  {
    hide OwnHandle, CatalogConsistent;
    var s' := Released(s, p, outcome, row);
    forall h | h in s'.rows ensures RowConsistent(s', s'.rows[h]) {
      assert h in s.rows ==> RowConsistent(s, s.rows[h]);
    }
    forall a | a in s'.catalogs ensures CatalogConsistent(s', s'.catalogs[a]) {
      CatalogCarries(s, s', s.catalogs[a]);
    }
  }

  /** It disturbs nobody else. */
  lemma ReleaseWorkers(s: State, p: Process, outcome: RunStatus, row: Row)
    requires WorkersConsistent(s) && p in s.processes && s.processes[p].Working? && FreeRow(s, row)
    requires row.run == Some(s.processes[p].run) ||
             (OwnHandle(s.processes[p].short, s.processes[p].k) in s.rows &&
              row.run == s.rows[OwnHandle(s.processes[p].short, s.processes[p].k)].run)
    ensures WorkersConsistent(Released(s, p, outcome, row))
  {
    hide OwnHandle, WorkConsistent;
    var s' := Released(s, p, outcome, row);
    forall q | q in s'.processes ensures WorkConsistent(s', s'.processes[q]) {
      if q != p {
        ReleaseWorker(s, p, outcome, row, q);
      } else {
        IdleConsistent(s');
      }
    }
  }

  lemma IdleConsistent(s: State)
    ensures WorkConsistent(s, Idle)
  {
  }

  lemma ReleaseWorker(s: State, p: Process, outcome: RunStatus, row: Row, q: Process)
    requires WorkersConsistent(s) && p in s.processes && s.processes[p].Working? && FreeRow(s, row)
    requires row.run == Some(s.processes[p].run) ||
             (OwnHandle(s.processes[p].short, s.processes[p].k) in s.rows &&
              row.run == s.rows[OwnHandle(s.processes[p].short, s.processes[p].k)].run)
    requires q in s.processes && q != p
    ensures WorkConsistent(Released(s, p, outcome, row), s.processes[q])
  {
    hide OwnHandle;
    assert WorkConsistent(s, s.processes[q]) && WorkConsistent(s, s.processes[p]);
    assert Apart(s.processes[p], s.processes[q]);
  }

  lemma FailSound(w: World, s: State, p: Process)
    requires Inv(w, s) && p in s.processes && s.processes[p].Working?
    ensures Inv(w, AfterFail(s, p))
  {
    hide WorldOk, OwnHandle, Orderly, InWorld, CatalogsComplete, RowsNamed, ClaimsConsistent, WorkersConsistent, Typed;
    var l, s' := s.processes[p], AfterFail(s, p);
    var h := OwnHandle(l.short, l.k);
    WorkingFacts(s, p);
    var row := s.rows[h].(status := Failed, claimOwner := None, claimStarted := None);
    assert s' == Released(s, p, RunFailed, row);
    RowRunKnown(s, h);
    ReleaseClaims(s, p, RunFailed, row);
    ReleaseWorkers(s, p, RunFailed, row);
    assert s'.rows.Keys == s.rows.Keys;
    NamesCarry(w, s, s');
    WorksOnDefinition(w, s, p);
    RowTells(w, s, l.short, l.k);
    IdleTyped(w);
    TypedCarry(w, s, s', p, Idle);
  }

  lemma WorkingFacts(s: State, p: Process)
    requires WorkersConsistent(s) && p in s.processes && s.processes[p].Working?
    ensures var l := s.processes[p];
            OwnHandle(l.short, l.k) in s.rows && l.run in s.runs && s.runs[l.run] == Running
  {
    hide OwnHandle;
    assert WorkConsistent(s, s.processes[p]);
  }

  lemma RowRunKnown(s: State, h: Handle)
    requires ClaimsConsistent(s) && h in s.rows
    ensures s.rows[h].run.Some? ==> s.rows[h].run.value in s.runs
  {
    assert RowConsistent(s, s.rows[h]);
  }

  // ---- Commit ------------------------------------------------------------------------------------------------

  lemma {:induction false} SelectFinds(m: Module, k: nat, i: nat)
    requires i <= k < |m.functions|
    ensures SelectFrom(m, FunctionKey(k), i).Some? && i <= SelectFrom(m, FunctionKey(k), i).value <= k
    decreases k - i
  {
    hide FunctionKey;
    if i < k {
      SelectFinds(m, k, i + 1);
    }
  }

  /** What is asked for by key is the graph of the selected function. */
  lemma OutputIsGraph(w: World, short: string, k: nat) returns (j: nat)
    requires WorldOk(w) && InWorld(w, short, k)
    ensures IsShort(short) && j <= k && WellFormed(w.artifacts[short], w.artifacts[short].functions[j])
    ensures Select(w.artifacts[short], FunctionKey(k)) == Some(j)
    ensures Output(w, short, k) == EmittedAll(Graph(w.artifacts[short], j))
  {
    hide Graph, EmittedAll, WellFormed, FunctionKey;
    SelectFinds(w.artifacts[short], k, 0);
    j := Select(w.artifacts[short], FunctionKey(k)).value;
    assert w.artifacts[short].functions[j] in w.artifacts[short].functions;
  }

  lemma OwnHandleHome(short: string, k: nat)
    requires IsShort(short)
    ensures Home(OwnHandle(short, k)) == short
  {
    hide EntityId, Home;
    HomeOfId(short, "function:" + FunctionKey(k));
  }

  /** The only function declared in the adapter's list is the one that was asked for. */
  lemma FunctionClaimed(m: Module, short: string, k: nat, short': string, k': nat)
    requires k < |m.functions| && WellFormed(m, m.functions[k]) && IsShort(short) && IsShort(short')
    requires EntityId(short', Render(FunctionOf(k'))) in Ids(short, EntitiesOf(EmittedAll(Graph(m, k))))
    ensures short' == short && k' == k
  {
    hide EntityId, Render, Graph, WellFormed, EntitiesOf, AdapterProperties.Sound;
    var rs, id := EmittedAll(Graph(m, k)), EntityId(short', Render(FunctionOf(k')));
    IdsExact(short, EntitiesOf(rs), id);
    var i :| 0 <= i < |EntitiesOf(rs)| && EntityId(short, EntitiesOf(rs)[i].local) == id;
    var r := EntitiesOf(rs)[i];
    assert r in EntitiesOf(rs) && r in rs;
    var j :| 0 <= j < |rs| && rs[j] == r;
    assert r == Emitted(Graph(m, k)[j]);
    HandleInjective(short, Graph(m, k)[j].local, short', FunctionOf(k'));
    OnlyFunction(m, k, j);
  }

  lemma OnlyFunction(m: Module, k: nat, j: nat)
    requires k < |m.functions| && WellFormed(m, m.functions[k])
    requires j < |Graph(m, k)| && Graph(m, k)[j].Entity? && Graph(m, k)[j].local.FunctionOf?
    ensures Graph(m, k)[j].local == FunctionOf(k)
  {
    hide Graph, WellFormed, AdapterProperties.Fits, AdapterProperties.Tabled;
    AdapterProperties.GraphSound(m, k);
    assert Declares(Graph(m, k), Graph(m, k)[j].local);
    assert AdapterProperties.Placement(k, AdapterProperties.Whole(m, k), AdapterProperties.Full(m.functions[k]),
                                       Graph(m, k)[j].local);
  }

  /** A commit neither removes nor adds the entity of any function, whatever graph it brings. */
  lemma FunctionEntitiesKept(t: Tables, short: string, m: Module, j: nat, f: Handle, run: string, b: string, n: nat)
    requires Keyed(t.entities) && IsShort(short) && Catalogued(t, short, m) && IsShort(b)
    requires j < |m.functions| && WellFormed(m, m.functions[j])
    ensures OwnHandle(b, n) in After(t, short, f, EmittedAll(Graph(m, j)), run).entities <==> OwnHandle(b, n) in t.entities
  {
    hide After, EntityId, Render, GoodRecords, WellFormed, FunctionHandle, EntitiesOf, Graph, EmittedAll, Keyed, IsShort;
    var rs, g := EmittedAll(Graph(m, j)), OwnHandle(b, n);
    OwnHandleText(b, n);
    AdapterRecordsFit(t, short, m, j);
    CommitOutside(t, short, FunctionKey(j), f, rs, run, g);
    if g in t.entities {
      FunctionKept(t.entities, f, b, n);
    }
    if g in Ids(short, EntitiesOf(rs)) {
      FunctionClaimed(m, short, j, b, n);
    }
  }

  /** The transaction of a working process always commits, and keeps the tables in order. */
  lemma CommitTables(w: World, s: State, p: Process)
    requires Inv(w, s) && WorldOk(w) && p in s.processes && s.processes[p].Working?
    requires InWorld(w, s.processes[p].short, s.processes[p].k)
    ensures var l := s.processes[p];
            var r := Replaced(s.tables, l.short, OwnHandle(l.short, l.k), Output(w, l.short, l.k), l.run);
            && r.Ok? && Orderly(r.value)
            && forall short, k :: InWorld(w, short, k) ==>
                 (OwnHandle(short, k) in r.value.entities <==> OwnHandle(short, k) in s.tables.entities)
  {
    hide Graph, EmittedAll, WellFormed, Select, Catalogued, Replaced, OwnHandle, Keyed, Separate, Output, WorkersConsistent,
         IsShort, Home, RowsOf, GraphRows, WorldOk;
    var l := s.processes[p];
    var h, m := OwnHandle(l.short, l.k), w.artifacts[l.short];
    var j := OutputIsGraph(w, l.short, l.k);
    WorkingFacts(s, p);
    EntityHasRow(w, s, l.short, l.k);
    AnyCommit(s.tables, l.short, m, j, h, l.run);
    OwnHandleHome(l.short, l.k);
    ReplacedPart(s.tables, l.short, h, Output(w, l.short, l.k), l.run, l.short);
    forall short, k | InWorld(w, short, k)
      ensures OwnHandle(short, k) in After(s.tables, l.short, h, EmittedAll(Graph(m, j)), l.run).entities <==>
              OwnHandle(short, k) in s.tables.entities
    {
      ShortInWorld(w, short, k);
      FunctionEntitiesKept(s.tables, l.short, m, j, h, l.run, short, k);
    }
  }

  lemma ShortInWorld(w: World, short: string, k: nat)
    requires WorldOk(w) && InWorld(w, short, k)
    ensures IsShort(short)
  {
    hide WellFormed;
  }

  /** Completeness and naming depend only on which functions have a row and which have an entity. */
  lemma SameNames(w: World, s: State, s': State)
    requires CatalogsComplete(w, s) && RowsNamed(w, s)
    requires s'.rows.Keys == s.rows.Keys
    requires forall short, k :: InWorld(w, short, k) ==>
               (OwnHandle(short, k) in s'.tables.entities <==> OwnHandle(short, k) in s.tables.entities)
    ensures CatalogsComplete(w, s') && RowsNamed(w, s')
  {
    hide OwnHandle, Catalogued;
    assert forall h :: h in s'.rows <==> h in s'.rows.Keys;
    assert forall h :: h in s.rows <==> h in s.rows.Keys;
    forall short, k | InWorld(w, short, k) && OwnHandle(short, k) in s'.rows
      ensures Catalogued(s'.tables, short, w.artifacts[short])
    {
      SameCatalogued(w, s, s', short);
    }
  }

  lemma SameCatalogued(w: World, s: State, s': State, short: string)
    requires short in w.artifacts && Catalogued(s.tables, short, w.artifacts[short])
    requires forall short, k :: InWorld(w, short, k) ==>
               (OwnHandle(short, k) in s'.tables.entities <==> OwnHandle(short, k) in s.tables.entities)
    ensures Catalogued(s'.tables, short, w.artifacts[short])
  {
    hide OwnHandle, EntityId, Render;
    forall n | 0 <= n < |w.artifacts[short].functions|
      ensures EntityId(short, Render(FunctionOf(n))) in s'.tables.entities
    {
      assert InWorld(w, short, n);
      OwnHandleText(short, n);
    }
  }

  lemma CommitSound(w: World, s: State, p: Process)
    requires Inv(w, s) && WorldOk(w) && p in s.processes && s.processes[p].Working?
    requires InWorld(w, s.processes[p].short, s.processes[p].k)
    ensures Inv(w, AfterCommit(w, s, p))
  {
    hide WorldOk, OwnHandle, Orderly, InWorld, CatalogsComplete, RowsNamed, ClaimsConsistent, WorkersConsistent, Output,
         Replaced, Typed;
    var l, s' := s.processes[p], AfterCommit(w, s, p);
    var h := OwnHandle(l.short, l.k);
    CommitTables(w, s, p);
    WorkingFacts(s, p);
    var row := Row(StructureReady, None, None, Some(l.run), true);
    var freed := Released(s, p, Success, row);
    ReleaseClaims(s, p, Success, row);
    ReleaseWorkers(s, p, Success, row);
    assert s' == freed.(tables := s'.tables);
    TablesIrrelevant(freed, s');
    assert s'.rows.Keys == s.rows.Keys;
    SameNames(w, s, s');
    WorksOnDefinition(w, s, p);
    RowTells(w, s, l.short, l.k);
    IdleTyped(w);
    TypedCarry(w, s, s', p, Idle);
  }

  lemma TablesIrrelevant(s: State, s': State)
    requires ClaimsConsistent(s) && WorkersConsistent(s) && s' == s.(tables := s'.tables)
    ensures ClaimsConsistent(s') && WorkersConsistent(s')
  {
    hide OwnHandle;
    forall h | h in s'.rows ensures RowConsistent(s', s'.rows[h]) {
      assert RowConsistent(s, s.rows[h]);
    }
    forall a | a in s'.catalogs ensures CatalogConsistent(s', s'.catalogs[a]) {
      assert CatalogConsistent(s, s.catalogs[a]);
    }
    forall p | p in s'.processes ensures WorkConsistent(s', s'.processes[p]) {
      assert WorkConsistent(s, s.processes[p]);
    }
  }
}
