/**
 * Materialization and catalog claims as a state machine. Each transaction is one step over the shared tables; any
 * number of processes interleave, crash at will, and share a clock.
 */
module Leases {
  import opened Wrappers
  import opened Keys
  import opened Records
  import opened Adapter
  import opened Snapshot
  import opened EndToEnd

  type Owner = nat
  type Process = nat

  datatype Status = CatalogOnly | DeclarationOnly | Materializing | StructureReady | Failed

  /** A row of the materializations table. `stamped` says that the adapter columns are those of this build. */
  datatype Row = Row(
    status: Status,
    claimOwner: Option<Owner>,
    claimStarted: Option<nat>,
    run: Option<string>,
    stamped: bool)

  datatype CatalogStatus = Stored | Cataloging | CatalogReady | CatalogFailed

  /** The catalog columns of an artifact. */
  datatype Catalog = Catalog(status: CatalogStatus, claimOwner: Option<Owner>, claimStarted: Option<nat>, run: Option<string>)

  datatype RunStatus = Running | Success | RunFailed

  /** Where a process stands between its transactions. */
  datatype Activity =
    | Idle
    | Checked(short: string, k: nat)
    | Working(short: string, k: nat, owner: Owner, run: string)
    | Reading(short: string, owner: Owner, run: string)

  datatype State = State(
    now: nat,
    tables: Tables,
    rows: map<Handle, Row>,
    catalogs: map<string, Catalog>,
    runs: map<string, RunStatus>,
    owners: set<Owner>,
    processes: map<Process, Activity>)

  /** The artifacts in the store, by the prefix of their digest. */
  datatype World = World(artifacts: map<string, Module>)

  /** Every artifact in the store is a parsed module. */
  ghost predicate WorldOk(w: World) {
    forall short :: short in w.artifacts ==>
      IsShort(short) && forall f :: f in w.artifacts[short].functions ==> WellFormed(w.artifacts[short], f)
  }

  /** Function `k` of an artifact. */
  predicate InWorld(w: World, short: string, k: nat) {
    short in w.artifacts && k < |w.artifacts[short].functions|
  }

  const EXPIRY := 600

  /** A claim expires when it started more than ten minutes ago. A missing start time never compares as older. */
  predicate Expired(now: nat, started: Option<nat>) {
    started.Some? && started.value + EXPIRY < now
  }

  /** The guard of the claiming UPDATE. */
  predicate Takeable(now: nat, row: Row) {
    row.status != Materializing || Expired(now, row.claimStarted)
  }

  predicate CatalogTakeable(now: nat, c: Catalog) {
    c.status != Cataloging || Expired(now, c.claimStarted)
  }

  /** The completed capabilities of the function are exactly the contract set. */
  predicate ManifestCurrent(t: Tables, h: Handle) {
    && (forall c :: c in CONTRACT ==> (h, c) in t.capabilities && t.capabilities[(h, c)].precision == CONTRACT[c])
    && (forall k :: k in t.capabilities && k.0 == h ==> k.1 in CONTRACT)
  }

  /** The snapshot may be answered from the cache. */
  predicate CacheCurrent(s: State, h: Handle) {
    h in s.rows && s.rows[h].status == StructureReady && s.rows[h].stamped && ManifestCurrent(s.tables, h)
  }

  datatype Action =
    | Tick(seconds: nat)
    | Check(p: Process, short: string, k: nat, refresh: bool)
    | Claim(p: Process, owner: Owner, run: string)
    | Commit(p: Process)
    | Fail(p: Process)
    | Crash(p: Process)
    | CatalogClaim(p: Process, short: string, owner: Owner, run: string)
    | CatalogCommit(p: Process)
    | CatalogFail(p: Process)

  /** Owners are fresh random identifiers and so are runs. */
  predicate NewNames(s: State, owner: Owner, run: string) {
    owner !in s.owners && run !in s.runs
  }

  /** What a process may do next. A new process may appear at any time by checking or cataloguing. */
  predicate Enabled(w: World, s: State, a: Action) {
    match a
    case Tick(_) => true
    case Check(p, short, k, _) => (p !in s.processes || s.processes[p].Idle?) && InWorld(w, short, k)
    case Claim(p, owner, run) => p in s.processes && s.processes[p].Checked? && NewNames(s, owner, run)
    case Commit(p) => p in s.processes && s.processes[p].Working?
    case Fail(p) => p in s.processes && s.processes[p].Working?
    case Crash(p) => p in s.processes
    case CatalogClaim(p, short, owner, run) =>
      (p !in s.processes || s.processes[p].Idle?) && short in w.artifacts && NewNames(s, owner, run)
    case CatalogCommit(p) => p in s.processes && s.processes[p].Reading?
    case CatalogFail(p) => p in s.processes && s.processes[p].Reading?
  }

  function Go(s: State, p: Process, l: Activity): State {
    s.(processes := s.processes[p := l])
  }

  // ---- Materialization ---------------------------------------------------------------------------------------

  /** The read before the claim: answered from the cache, answered as a declaration, or worth claiming. */
  function AfterCheck(s: State, p: Process, short: string, k: nat, refresh: bool): State {
    var h := OwnHandle(short, k);
    if h !in s.tables.entities then Go(s, p, Idle)
    else if !refresh && CacheCurrent(s, h) then Go(s, p, Idle)
    else if h in s.rows && s.rows[h].status == DeclarationOnly then Go(s, p, Idle)
    else Go(s, p, Checked(short, k))
  }

  /** The claim succeeds on one row or reports that another process is busy. */
  predicate ClaimSucceeds(s: State, h: Handle) {
    h in s.rows && Takeable(s.now, s.rows[h])
  }

  function AfterClaim(s: State, p: Process, owner: Owner, run: string): State
    requires p in s.processes && s.processes[p].Checked?
  {
    var l := s.processes[p];
    var h := OwnHandle(l.short, l.k);
    if !ClaimSucceeds(s, h) then Go(s, p, Idle)
    else
      Go(s.(rows := s.rows[h := s.rows[h].(status := Materializing, claimOwner := Some(owner),
                                           claimStarted := Some(s.now))],
            runs := s.runs[run := Running],
            owners := s.owners + {owner}),
         p, Working(l.short, l.k, owner, run))
  }

  /** The final UPDATE takes effect only while the owner still holds the claim. */
  predicate Holds(s: State, h: Handle, owner: Owner) {
    h in s.rows && s.rows[h].claimOwner == Some(owner)
  }

  function AfterFail(s: State, p: Process): State
    requires p in s.processes && s.processes[p].Working?
  {
    var l := s.processes[p];
    var h := OwnHandle(l.short, l.k);
    var ended := s.(runs := s.runs[l.run := RunFailed]);
    var released :=
      if Holds(s, h, l.owner) then
        ended.(rows := s.rows[h := s.rows[h].(status := Failed, claimOwner := None, claimStarted := None)])
      else ended;
    Go(released, p, Idle)
  }

  /** What the adapter returns for function `k` of an artifact. */
  ghost function Output(w: World, short: string, k: nat): seq<Record<string>>
    requires WorldOk(w) && InWorld(w, short, k)
  {
    Answer(w.artifacts[short], FunctionKey(k))
  }

  /** The snapshot is replaced whether or not the claim is still held; only the row is fenced. */
  ghost function AfterCommit(w: World, s: State, p: Process): State
    requires WorldOk(w) && p in s.processes && s.processes[p].Working?
    requires InWorld(w, s.processes[p].short, s.processes[p].k)
  {
    var l := s.processes[p];
    var h := OwnHandle(l.short, l.k);
    match Replaced(s.tables, l.short, h, Output(w, l.short, l.k), l.run)
    case Err(_) => AfterFail(s, p)
    case Ok(t) =>
      var stored := s.(tables := t, runs := s.runs[l.run := Success]);
      var released :=
        if Holds(s, h, l.owner) then
          stored.(rows := s.rows[h := Row(StructureReady, None, None, Some(l.run), true)])
        else stored;
      Go(released, p, Idle)
  }

  // ---- Catalog -----------------------------------------------------------------------------------------------

  function CatalogOf(s: State, short: string): Catalog {
    if short in s.catalogs then s.catalogs[short] else Catalog(Stored, None, None, None)
  }

  function AfterCatalogClaim(s: State, p: Process, short: string, owner: Owner, run: string): State {
    if !CatalogTakeable(s.now, CatalogOf(s, short)) then Go(s, p, Idle)
    else
      Go(s.(catalogs := s.catalogs[short := Catalog(Cataloging, Some(owner), Some(s.now), Some(run))],
            runs := s.runs[run := Running],
            owners := s.owners + {owner}),
         p, Reading(short, owner, run))
  }

  function CatalogText(f: Function): string {
    if f.declaration then "declaration_only" else "catalog_only"
  }

  /** The entity of a function after cataloguing: inserted, or renamed and reset. */
  function CataloguedEntity(es: map<Handle, EntityRow>, short: string, n: nat, f: Function): EntityRow {
    var id := EntityId(short, Render(FunctionOf(n)));
    if id in es then es[id].(name := f.name, materialization := CatalogText(f))
    else EntityRow(short, None, None, "function", Render(FunctionOf(n)), Some(n), f.name, None, "", CatalogText(f))
  }

  function CataloguedEntities(es: map<Handle, EntityRow>, short: string, m: Module, n: nat): map<Handle, EntityRow>
    requires n <= |m.functions|
  {
    if n == 0 then es
    else
      var before := CataloguedEntities(es, short, m, n - 1);
      before[EntityId(short, Render(FunctionOf(n - 1))) := CataloguedEntity(before, short, n - 1, m.functions[n - 1])]
  }

  /** Every function's row is reset and its claim is cleared; the run column stays. */
  function ResetRow(rows: map<Handle, Row>, h: Handle, f: Function): Row {
    var status := if f.declaration then DeclarationOnly else CatalogOnly;
    if h in rows then rows[h].(status := status, claimOwner := None, claimStarted := None)
    else Row(status, None, None, None, false)
  }

  function ResetRows(rows: map<Handle, Row>, short: string, m: Module, n: nat): map<Handle, Row>
    requires n <= |m.functions|
  {
    if n == 0 then rows
    else
      var before := ResetRows(rows, short, m, n - 1);
      before[OwnHandle(short, n - 1) := ResetRow(before, OwnHandle(short, n - 1), m.functions[n - 1])]
  }

  /** The catalog's UPDATE is not fenced: it clears whatever claim the artifact has. */
  function AfterCatalogCommit(w: World, s: State, p: Process): State
    requires p in s.processes && s.processes[p].Reading? && s.processes[p].short in w.artifacts
  {
    var l := s.processes[p];
    var m := w.artifacts[l.short];
    Go(s.(tables := s.tables.(entities := CataloguedEntities(s.tables.entities, l.short, m, |m.functions|)),
          rows := ResetRows(s.rows, l.short, m, |m.functions|),
          catalogs := s.catalogs[l.short := Catalog(CatalogReady, None, None, CatalogOf(s, l.short).run)],
          runs := s.runs[l.run := Success]),
       p, Idle)
  }

  function AfterCatalogFail(s: State, p: Process): State
    requires p in s.processes && s.processes[p].Reading?
  {
    var l := s.processes[p];
    Go(s.(catalogs := s.catalogs[l.short := Catalog(CatalogFailed, None, None, CatalogOf(s, l.short).run)],
          runs := s.runs[l.run := RunFailed]),
       p, Idle)
  }

  // ---- Runs of the system ------------------------------------------------------------------------------------

  /** Every process works on something that exists. */
  predicate Sensible(w: World, s: State) {
    forall p :: p in s.processes ==>
      match s.processes[p]
      case Idle => true
      case Checked(short, k) => InWorld(w, short, k)
      case Working(short, k, _, _) => InWorld(w, short, k)
      case Reading(short, _, _) => short in w.artifacts
  }

  /** One transaction. A state with a process working on nothing is left alone; no run reaches one. */
  ghost function Apply(w: World, s: State, a: Action): State
    requires WorldOk(w) && Enabled(w, s, a)
  {
    if !Sensible(w, s) then s
    else match a
    case Tick(d) => s.(now := s.now + d)
    case Check(p, short, k, refresh) => AfterCheck(s, p, short, k, refresh)
    case Claim(p, owner, run) => AfterClaim(s, p, owner, run)
    case Commit(p) => AfterCommit(w, s, p)
    case Fail(p) => AfterFail(s, p)
    case Crash(p) => Go(s, p, Idle)
    case CatalogClaim(p, short, owner, run) => AfterCatalogClaim(s, p, short, owner, run)
    case CatalogCommit(p) => AfterCatalogCommit(w, s, p)
    case CatalogFail(p) => AfterCatalogFail(s, p)
  }

  const EMPTY_TABLES: Tables := Tables(map[], [], [], map[])

  /** A freshly initialized state directory. */
  predicate Init(s: State) {
    s.tables == EMPTY_TABLES && s.rows == map[] && s.catalogs == map[] && s.runs == map[] && s.owners == {} &&
    s.processes == map[]
  }

  /** A run: states joined by actions, starting from an initialized directory. */
  ghost predicate Execution(w: World, states: seq<State>, actions: seq<Action>) {
    && WorldOk(w) && |states| == |actions| + 1 && Init(states[0])
    && forall i :: 0 <= i < |actions| ==>
         Enabled(w, states[i], actions[i]) && states[i + 1] == Apply(w, states[i], actions[i])
  }
}
