/** What each request does, told by the states before and after it and by the requests around it. */
module LeaseRequests {
  import opened Wrappers
  import opened Keys
  import opened Records
  import opened Adapter
  import opened Snapshot
  import opened SnapshotProperties
  import opened SnapshotContent
  import opened EndToEnd
  import opened Namesakes
  import opened Leases
  import opened LeaseProperties
  import opened LeaseSafety
  import opened LeaseSnapshots
  import opened LeaseTheorems

  lemma StepAt(w: World, states: seq<State>, actions: seq<Action>, i: nat)
    requires Execution(w, states, actions) && i < |actions|
    ensures |states| == |actions| + 1 && WorldOk(w) && Inv(w, states[i]) && Sensible(w, states[i])
    ensures Enabled(w, states[i], actions[i]) && states[i + 1] == Apply(w, states[i], actions[i])
  {
    hide Inv, Apply, Enabled, Sensible, WorldOk, Init;
    Reached(w, states, actions, i);
    InvParts(w, states[i]);
  }

  // ---- Answering from the cache ------------------------------------------------------------------------------

  /** The capabilities of the function are these six, with these precisions. */
  ghost predicate SixCapabilities(t: Tables, h: Handle) {
    && (forall c :: (h, c) in t.capabilities <==>
                    c in {"entity_index", "operand_graph", "cfg", "control_dependence", "source_mapping", "direct_calls"})
    && (forall c :: (h, c) in t.capabilities ==>
                    t.capabilities[(h, c)].precision == if c == "source_mapping" then "partial" else "exact")
  }

  lemma ContractIsSix(c: string)
    ensures c in CONTRACT <==>
            c in {"entity_index", "operand_graph", "cfg", "control_dependence", "source_mapping", "direct_calls"}
    ensures c in CONTRACT ==> CONTRACT[c] == if c == "source_mapping" then "partial" else "exact"
  {
  }

  lemma ManifestIsSix(t: Tables, h: Handle)
    ensures ManifestCurrent(t, h) <==> SixCapabilities(t, h)
  {
    hide CONTRACT;
    forall c: string
      ensures c in CONTRACT <==>
              c in {"entity_index", "operand_graph", "cfg", "control_dependence", "source_mapping", "direct_calls"}
      ensures c in CONTRACT ==> CONTRACT[c] == if c == "source_mapping" then "partial" else "exact"
    {
      ContractIsSix(c);
    }
    if SixCapabilities(t, h) {
      SixAreCurrent(t, h);
    }
    if ManifestCurrent(t, h) {
      forall c | (h, c) in t.capabilities ensures c in CONTRACT {
        assert (h, c).0 == h && (h, c).1 == c;
      }
    }
  }

  lemma SixAreCurrent(t: Tables, h: Handle)
    requires SixCapabilities(t, h)
    ensures ManifestCurrent(t, h)
  {
    hide CONTRACT;
    forall c | c in CONTRACT ensures (h, c) in t.capabilities && t.capabilities[(h, c)].precision == CONTRACT[c] {
      ContractIsSix(c);
    }
    forall x | x in t.capabilities && x.0 == h ensures x.1 in CONTRACT {
      assert x == (h, x.1);
      ContractIsSix(x.1);
    }
  }

  /** The function is ready, by this build, and with the whole manifest. */
  ghost predicate Answerable(s: State, h: Handle) {
    h in s.rows && s.rows[h].status == StructureReady && s.rows[h].stamped && SixCapabilities(s.tables, h)
  }

  /**
   * A check changes nothing but the process. It goes on to claim exactly when the function was catalogued, is defined,
   * and is not answerable or is to be refreshed; otherwise it ends.
   */
  lemma CheckExact(w: World, states: seq<State>, actions: seq<Action>, i: nat, p: Process, short: string, k: nat,
                   refresh: bool)
    requires Execution(w, states, actions) && i < |actions| && actions[i] == Check(p, short, k, refresh)
    ensures |states| == |actions| + 1 && InWorld(w, short, k)
    ensures var s, s', h := states[i], states[i + 1], OwnHandle(short, k);
            && p in s'.processes
            && s' == s.(processes := s.processes[p := s'.processes[p]])
            && (s'.processes[p] == Idle || s'.processes[p] == Checked(short, k))
            && (s'.processes[p] == Checked(short, k) <==>
                && h in s.tables.entities && !w.artifacts[short].functions[k].declaration
                && (refresh || !Answerable(s, h)))
  {
    hide Inv, Execution, OwnHandle, WorldOk, Sensible, ManifestCurrent, SixCapabilities, AfterCommit, AfterCatalogCommit;
    StepAt(w, states, actions, i);
    var s, h := states[i], OwnHandle(short, k);
    ManifestIsSix(s.tables, h);
    EntityHasRow(w, s, short, k);
    if h in s.rows {
      RowTells(w, s, short, k);
    }
  }

  /** Nobody is about to materialize the function. */
  ghost predicate Quiet(s: State, short: string, k: nat) {
    forall p :: p in s.processes ==> !Engaged(s.processes[p], short, k)
  }

  predicate Engaged(l: Activity, short: string, k: nat) {
    (l.Checked? || l.Working?) && l.short == short && l.k == k
  }

  /** The action asks for the function anew, or replaces the catalog of its artifact. */
  predicate Disturbs(s: State, a: Action, short: string, k: nat) {
    match a
    case Check(_, b, j, refresh) => refresh && b == short && j == k
    case CatalogCommit(p) => p in s.processes && s.processes[p].Reading? && s.processes[p].short == short
    case _ => false
  }

  lemma OtherHandle(w: World, a: string, j: nat, b: string, k: nat)
    requires WorldOk(w) && InWorld(w, a, j) && InWorld(w, b, k) && (a != b || j != k)
    ensures OwnHandle(a, j) != OwnHandle(b, k)
  {
    hide OwnHandle, WorldOk;
    if OwnHandle(a, j) == OwnHandle(b, k) {
      OwnHandleInjective(w, a, j, b, k);
    }
  }

  ghost predicate Settled(s: State, row: Row, short: string, k: nat) {
    var h := OwnHandle(short, k);
    CacheCurrent(s, h) && s.rows[h] == row && Quiet(s, short, k)
  }

  lemma CommitKeepsManifest(w: World, s: State, p: Process, g: Handle)
    requires Inv(w, s) && WorldOk(w) && p in s.processes && s.processes[p].Working?
    requires InWorld(w, s.processes[p].short, s.processes[p].k)
    requires g != OwnHandle(s.processes[p].short, s.processes[p].k) && ManifestCurrent(s.tables, g)
    ensures ManifestCurrent(AfterCommit(w, s, p).tables, g)
  {
    hide *;
    var l := s.processes[p];
    var j := CommitGraph(w, s, p);
    InWorldBounds(w, l.short, l.k);
    var m, h := w.artifacts[l.short], OwnHandle(l.short, l.k);
    AnyCommit(s.tables, l.short, m, j, h, l.run);
    AfterCertified(s.tables, l.short, FunctionKey(j), h, EmittedAll(Graph(m, j)), l.run);
  }

  lemma InWorldBounds(w: World, short: string, k: nat)
    requires InWorld(w, short, k)
    ensures short in w.artifacts && k < |w.artifacts[short].functions|
  {
  }

  lemma CommitElsewhere(w: World, s: State, p: Process, row: Row, short: string, k: nat)
    requires Inv(w, s) && WorldOk(w) && p in s.processes && s.processes[p].Working? && InWorld(w, short, k)
    requires InWorld(w, s.processes[p].short, s.processes[p].k) && Settled(s, row, short, k)
    ensures Settled(AfterCommit(w, s, p), row, short, k)
  {
    hide OwnHandle, Inv, WorldOk, AfterCommit, InWorld, ManifestCurrent;
    var l := s.processes[p];
    assert Engaged(l, short, k) <==> l.short == short && l.k == k;
    OtherHandle(w, l.short, l.k, short, k);
    CommitFenced(w, s, p);
    CommitKeepsManifest(w, s, p, OwnHandle(short, k));
  }

  lemma CatalogElsewhere(w: World, s: State, p: Process, row: Row, short: string, k: nat)
    requires Inv(w, s) && WorldOk(w) && p in s.processes && s.processes[p].Reading? && InWorld(w, short, k)
    requires s.processes[p].short in w.artifacts && s.processes[p].short != short && Settled(s, row, short, k)
    ensures Settled(AfterCatalogCommit(w, s, p), row, short, k)
  {
    hide OwnHandle, Inv, WorldOk, InWorld, CataloguedEntities, ResetRows, OneOf;
    var a := s.processes[p].short;
    var n := |w.artifacts[a].functions|;
    ResetRowsAt(s.rows, a, w.artifacts[a], n, OwnHandle(short, k));
    if OneOf(a, n, OwnHandle(short, k)) {
      OneOfModule(w, a, short, k);
    }
  }

  lemma ClaimElsewhere(w: World, s: State, p: Process, owner: Owner, run: string, row: Row, short: string, k: nat)
    requires WorldOk(w) && Sensible(w, s) && p in s.processes && s.processes[p].Checked? && InWorld(w, short, k)
    requires Settled(s, row, short, k)
    ensures Settled(AfterClaim(s, p, owner, run), row, short, k)
  {
    hide OwnHandle, WorldOk, InWorld, ManifestCurrent;
    var l := s.processes[p];
    assert l.short != short || l.k != k;
    OtherHandle(w, l.short, l.k, short, k);
  }

  lemma FailElsewhere(w: World, s: State, p: Process, row: Row, short: string, k: nat)
    requires WorldOk(w) && Sensible(w, s) && p in s.processes && s.processes[p].Working? && InWorld(w, short, k)
    requires Settled(s, row, short, k)
    ensures Settled(AfterFail(s, p), row, short, k)
  {
    hide OwnHandle, WorldOk, InWorld, ManifestCurrent;
    var l := s.processes[p];
    assert l.short != short || l.k != k;
    OtherHandle(w, l.short, l.k, short, k);
  }

  lemma OtherSettled(w: World, s: State, a: Action, row: Row, short: string, k: nat)
    requires WorldOk(w) && Sensible(w, s) && Enabled(w, s, a) && InWorld(w, short, k)
    requires a.Tick? || a.Check? || a.Crash? || a.CatalogClaim? || a.CatalogFail?
    requires Settled(s, row, short, k) && !Disturbs(s, a, short, k)
    ensures Settled(Apply(w, s, a), row, short, k)
  {
    hide OwnHandle, WorldOk, ManifestCurrent, AfterCommit, AfterCatalogCommit, Sensible, InWorld;
  }

  lemma SettledStep(w: World, s: State, a: Action, row: Row, short: string, k: nat)
    requires Inv(w, s) && WorldOk(w) && Sensible(w, s) && Enabled(w, s, a) && InWorld(w, short, k)
    requires Settled(s, row, short, k) && !Disturbs(s, a, short, k)
    ensures Settled(Apply(w, s, a), row, short, k)
  {
    hide OwnHandle, Inv, WorldOk, InWorld, AfterCommit, AfterCatalogCommit, AfterCheck, AfterClaim, AfterFail,
         AfterCatalogClaim, AfterCatalogFail, Settled;
    match a {
      case Commit(p) =>
        WorksInWorld(w, s, p);
        CommitElsewhere(w, s, p, row, short, k);
      case CatalogCommit(p) =>
        CatalogElsewhere(w, s, p, row, short, k);
      case Claim(p, owner, run) =>
        ClaimElsewhere(w, s, p, owner, run, row, short, k);
      case Fail(p) =>
        FailElsewhere(w, s, p, row, short, k);
      case _ =>
        OtherSettled(w, s, a, row, short, k);
    }
  }

  /**
   * A function that is answerable, and that nobody is about to materialize, stays so: until a refresh is asked for or
   * its artifact is catalogued, no check of it leads to a claim and its row stays as it is. This holds in every store.
   */
  lemma {:induction false} StaysAnswered(w: World, states: seq<State>, actions: seq<Action>, i: nat, j: nat,
                                         short: string, k: nat)
    requires Execution(w, states, actions) && i <= j < |states| && InWorld(w, short, k)
    requires Answerable(states[i], OwnHandle(short, k)) && Quiet(states[i], short, k)
    requires forall x :: i <= x < j ==> !Disturbs(states[x], actions[x], short, k)
    ensures Answerable(states[j], OwnHandle(short, k)) && Quiet(states[j], short, k)
    ensures states[j].rows[OwnHandle(short, k)] == states[i].rows[OwnHandle(short, k)]
    decreases j - i
  {
    hide Inv, OwnHandle, WorldOk, Sensible, Enabled, Apply, Init, InWorld, ManifestCurrent, SixCapabilities, Disturbs, Quiet;
    var h := OwnHandle(short, k);
    ManifestIsSix(states[i].tables, h);
    ManifestIsSix(states[j].tables, h);
    if i < j {
      StaysAnswered(w, states, actions, i, j - 1, short, k);
      StepAt(w, states, actions, j - 1);
      ManifestIsSix(states[j - 1].tables, h);
      SettledStep(w, states[j - 1], actions[j - 1], states[i].rows[h], short, k);
    }
  }

  /** In particular every function of a faithful artifact that is ready is answerable. */
  lemma ReadyIsAnswerable(w: World, states: seq<State>, actions: seq<Action>, i: nat, short: string, k: nat)
    requires Execution(w, states, actions) && i < |states| && InWorld(w, short, k) && Faithful(w.artifacts[short])
    requires OwnHandle(short, k) in states[i].rows && states[i].rows[OwnHandle(short, k)].status == StructureReady
    ensures Answerable(states[i], OwnHandle(short, k))
  {
    hide Execution, OwnHandle, InWorld, Faithful, ManifestCurrent, SixCapabilities, OneRun;
    ReadyIsSound(w, states, actions, i, short, k);
    ManifestIsSix(states[i].tables, OwnHandle(short, k));
  }

  // ---- Ten minutes -------------------------------------------------------------------------------------------

  /** The claim of the row began at the time `since` and is the owner's, or more than ten minutes have passed. */
  ghost predicate Protected(s: State, h: Handle, owner: Owner, since: nat) {
    s.now > since + 600 ||
    (h in s.rows && s.rows[h].status == Materializing && s.rows[h].claimOwner == Some(owner) &&
     s.rows[h].claimStarted == Some(since))
  }

  /** The action ends the work of the owner, or replaces the catalog of the artifact. */
  predicate Releases(s: State, a: Action, owner: Owner, short: string) {
    match a
    case Commit(p) => p in s.processes && s.processes[p].Working? && s.processes[p].owner == owner
    case Fail(p) => p in s.processes && s.processes[p].Working? && s.processes[p].owner == owner
    case CatalogCommit(p) => p in s.processes && s.processes[p].Reading? && s.processes[p].short == short
    case _ => false
  }

  lemma ProtectedClaim(w: World, s: State, p: Process, o: Owner, r: string, h: Handle, owner: Owner, since: nat)
    requires p in s.processes && s.processes[p].Checked? && Protected(s, h, owner, since)
    ensures Protected(AfterClaim(s, p, o, r), h, owner, since)
  {
    hide OwnHandle;
  }

  lemma ProtectedCommit(w: World, s: State, p: Process, h: Handle, owner: Owner, since: nat)
    requires Inv(w, s) && WorldOk(w) && p in s.processes && s.processes[p].Working?
    requires InWorld(w, s.processes[p].short, s.processes[p].k) && s.processes[p].owner != owner
    requires Protected(s, h, owner, since)
    ensures Protected(AfterCommit(w, s, p), h, owner, since)
  {
    hide Inv, WorldOk, InWorld, OwnHandle, AfterCommit;
    CommitFenced(w, s, p);
    CommitTime(w, s, p);
  }

  lemma CommitTime(w: World, s: State, p: Process)
    requires WorldOk(w) && p in s.processes && s.processes[p].Working?
    requires InWorld(w, s.processes[p].short, s.processes[p].k)
    ensures AfterCommit(w, s, p).now == s.now
  {
    hide WorldOk, OwnHandle, InWorld, Output, Replaced;
  }

  lemma ProtectedCatalog(w: World, s: State, p: Process, short: string, k: nat, owner: Owner, since: nat)
    requires WorldOk(w) && InWorld(w, short, k) && p in s.processes && s.processes[p].Reading?
    requires s.processes[p].short in w.artifacts && s.processes[p].short != short
    requires Protected(s, OwnHandle(short, k), owner, since)
    ensures Protected(AfterCatalogCommit(w, s, p), OwnHandle(short, k), owner, since)
  {
    hide OwnHandle, WorldOk, InWorld, CataloguedEntities, ResetRows, OneOf;
    var a := s.processes[p].short;
    ResetRowsAt(s.rows, a, w.artifacts[a], |w.artifacts[a].functions|, OwnHandle(short, k));
    if OneOf(a, |w.artifacts[a].functions|, OwnHandle(short, k)) {
      OneOfModule(w, a, short, k);
    }
  }

  lemma ProtectedStep(w: World, s: State, a: Action, short: string, k: nat, owner: Owner, since: nat)
    requires Inv(w, s) && WorldOk(w) && Sensible(w, s) && Enabled(w, s, a) && InWorld(w, short, k)
    requires Protected(s, OwnHandle(short, k), owner, since) && !Releases(s, a, owner, short)
    ensures Protected(Apply(w, s, a), OwnHandle(short, k), owner, since)
  {
    hide OwnHandle, Inv, WorldOk, InWorld, AfterCommit, AfterCatalogCommit, AfterClaim, Takeable, CatalogTakeable,
         CacheCurrent;
    match a {
      case Commit(p) =>
        WorksInWorld(w, s, p);
        ProtectedCommit(w, s, p, OwnHandle(short, k), owner, since);
      case CatalogCommit(p) =>
        ProtectedCatalog(w, s, p, short, k, owner, since);
      case Claim(p, o, r) =>
        ProtectedClaim(w, s, p, o, r, OwnHandle(short, k), owner, since);
      case _ =>
    }
  }

  lemma {:induction false} ProtectedUntil(w: World, states: seq<State>, actions: seq<Action>, i: nat, j: nat,
                                          short: string, k: nat, owner: Owner, since: nat)
    requires Execution(w, states, actions) && i <= j < |states| && InWorld(w, short, k)
    requires Protected(states[i], OwnHandle(short, k), owner, since)
    requires forall x :: i <= x < j ==> !Releases(states[x], actions[x], owner, short)
    ensures Protected(states[j], OwnHandle(short, k), owner, since)
    decreases j - i
  {
    hide Inv, OwnHandle, WorldOk, Sensible, Enabled, Apply, Init, InWorld, Releases, Protected;
    if i < j {
      ProtectedUntil(w, states, actions, i, j - 1, short, k, owner, since);
      StepAt(w, states, actions, j - 1);
      ProtectedStep(w, states[j - 1], actions[j - 1], short, k, owner, since);
    }
  }

  /** The action makes the process the holder of the function's claim. */
  ghost predicate Takes(states: seq<State>, actions: seq<Action>, i: nat, p: Process, owner: Owner, short: string, k: nat)
    requires i < |actions| && |states| == |actions| + 1
  {
    && actions[i].Claim? && actions[i].p == p && actions[i].owner == owner
    && p in states[i + 1].processes && states[i + 1].processes[p] == Working(short, k, owner, actions[i].run)
  }

  lemma TakenClaim(w: World, states: seq<State>, actions: seq<Action>, i: nat, p: Process, owner: Owner, short: string,
                   k: nat)
    requires Execution(w, states, actions) && i < |actions| && |states| == |actions| + 1
    requires Takes(states, actions, i, p, owner, short, k)
    ensures InWorld(w, short, k)
    ensures states[i + 1].now == states[i].now && Protected(states[i + 1], OwnHandle(short, k), owner, states[i].now)
  {
    hide Execution, Inv, OwnHandle, WorldOk, AfterCommit, AfterCatalogCommit, InWorld;
    StepAt(w, states, actions, i);
  }

  lemma TakenLate(w: World, states: seq<State>, actions: seq<Action>, i: nat, p: Process, owner: Owner, short: string,
                  k: nat, first: Owner, since: nat)
    requires Execution(w, states, actions) && i < |actions| && |states| == |actions| + 1
    requires Takes(states, actions, i, p, owner, short, k) && Protected(states[i], OwnHandle(short, k), first, since)
    ensures states[i].now > since + 600
  {
    hide Execution, Inv, OwnHandle, WorldOk, AfterCommit, AfterCatalogCommit, InWorld;
    StepAt(w, states, actions, i);
  }

  /**
   * A claim lasts ten minutes: whoever takes the same function later does so more than 600 seconds later, unless the
   * first owner committed or failed meanwhile or the artifact was catalogued.
   */
  lemma TenMinutes(w: World, states: seq<State>, actions: seq<Action>, i: nat, j: nat, p: Process, owner: Owner,
                   q: Process, other: Owner, short: string, k: nat)
    requires Execution(w, states, actions) && i < j < |actions| && |states| == |actions| + 1
    requires Takes(states, actions, i, p, owner, short, k) && Takes(states, actions, j, q, other, short, k)
    requires forall x :: i < x < j ==> !Releases(states[x], actions[x], owner, short)
    ensures states[j].now > states[i].now + 600
  {
    hide Execution, OwnHandle, InWorld, Releases, Takes, Protected;
    TakenClaim(w, states, actions, i, p, owner, short, k);
    ProtectedUntil(w, states, actions, i + 1, j, short, k, owner, states[i].now);
    TakenLate(w, states, actions, j, q, other, short, k, owner, states[i].now);
  }

  /** The claim is held and at most ten minutes old. */
  predicate HeldNow(s: State, h: Handle) {
    h in s.rows && s.rows[h].status == Materializing && s.rows[h].claimStarted.Some? &&
    s.now <= s.rows[h].claimStarted.value + 600
  }

  /** A claim takes the row for its owner from now on and opens its run; if the row is held, it only ends the process. */
  lemma ClaimExact(w: World, states: seq<State>, actions: seq<Action>, i: nat, p: Process, owner: Owner, run: string,
                   short: string, k: nat)
    requires Execution(w, states, actions) && i < |actions| && actions[i] == Claim(p, owner, run)
    requires p in states[i].processes && states[i].processes[p] == Checked(short, k)
    ensures |states| == |actions| + 1
    ensures var s, s', h := states[i], states[i + 1], OwnHandle(short, k);
            if HeldNow(s, h) then s' == s.(processes := s.processes[p := Idle])
            else
              && h in s.rows && s'.now == s.now && s'.tables == s.tables && s'.catalogs == s.catalogs
              && s'.rows == s.rows[h := Row(Materializing, Some(owner), Some(s.now), s.rows[h].run, s.rows[h].stamped)]
              && s'.runs == s.runs[run := Running] && s'.owners == s.owners + {owner}
              && s'.processes == s.processes[p := Working(short, k, owner, run)]
  {
    hide Execution, Inv, WorldOk, OwnHandle, AfterCommit, AfterCatalogCommit, Sensible;
    StepAt(w, states, actions, i);
    WorkAt(w, states[i], p);
    RowConsistentAt(w, states[i], OwnHandle(short, k));
  }

  /** A failure ends the run, releases the row if it is still held, and leaves everything else; death leaves it all. */
  lemma FailExact(w: World, states: seq<State>, actions: seq<Action>, i: nat, p: Process, owner: Owner, run: string,
                  short: string, k: nat)
    requires Execution(w, states, actions) && i < |actions| && (actions[i] == Fail(p) || actions[i] == Crash(p))
    requires p in states[i].processes && states[i].processes[p] == Working(short, k, owner, run)
    ensures |states| == |actions| + 1
    ensures var s, s', h := states[i], states[i + 1], OwnHandle(short, k);
            && h in s.rows
            && s' == s.(processes := s.processes[p := Idle], runs := s'.runs, rows := s'.rows)
            && (actions[i].Crash? ==> s'.runs == s.runs && s'.rows == s.rows)
            && (actions[i].Fail? ==>
                  && s'.runs == s.runs[run := RunFailed]
                  && s'.rows == if s.rows[h].claimOwner == Some(owner)
                                then s.rows[h := Row(Failed, None, None, s.rows[h].run, s.rows[h].stamped)] else s.rows)
  {
    hide Execution, Inv, WorldOk, OwnHandle, AfterCommit, AfterCatalogCommit, Sensible;
    StepAt(w, states, actions, i);
    WorkAt(w, states[i], p);
  }

  // ---- Catalogs ----------------------------------------------------------------------------------------------

  /**
   * A catalog leaves every function of its artifact unclaimed and marked as a declaration or as not materialized, with
   * its old run, and every other row alone; then the artifact is ready and anybody may claim its catalog.
   */
  lemma CatalogExact(w: World, states: seq<State>, actions: seq<Action>, i: nat, p: Process, short: string, owner: Owner,
                     run: string)
    requires Execution(w, states, actions) && i < |actions| && actions[i] == CatalogCommit(p)
    requires p in states[i].processes && states[i].processes[p] == Reading(short, owner, run)
    ensures |states| == |actions| + 1 && WorldOk(w) && short in w.artifacts
    ensures var s, s', fs := states[i], states[i + 1], w.artifacts[short].functions;
            && (forall k: nat :: k < |fs| ==>
                  var h := OwnHandle(short, k);
                  && h in s'.rows && s'.rows[h].status == (if fs[k].declaration then DeclarationOnly else CatalogOnly)
                  && s'.rows[h].claimOwner == None && s'.rows[h].claimStarted == None
                  && s'.rows[h].run == if h in s.rows then s.rows[h].run else None)
            && (forall b, k: nat :: InWorld(w, b, k) && b != short ==>
                  (OwnHandle(b, k) in s'.rows <==> OwnHandle(b, k) in s.rows) &&
                  (OwnHandle(b, k) in s.rows ==> s'.rows[OwnHandle(b, k)] == s.rows[OwnHandle(b, k)]))
            && CatalogOf(s', short).status == CatalogReady && CatalogOf(s', short).claimOwner == None
            && s'.runs == s.runs[run := Success] && s'.processes == s.processes[p := Idle]
  {
    hide Execution, Inv, WorldOk, OwnHandle, AfterCommit, CataloguedEntities, ResetRows, OneOf, Sensible;
    StepAt(w, states, actions, i);
    ReadsInWorld(w, states[i], p);
    CatalogRows(w, states[i], p);
  }

  lemma ReadsInWorld(w: World, s: State, p: Process)
    requires Sensible(w, s) && p in s.processes && s.processes[p].Reading?
    ensures s.processes[p].short in w.artifacts
  {
    hide InWorld;
  }

  lemma CatalogRows(w: World, s: State, p: Process)
    requires WorldOk(w) && p in s.processes && s.processes[p].Reading? && s.processes[p].short in w.artifacts
    ensures var short, m := s.processes[p].short, w.artifacts[s.processes[p].short];
            var rows := ResetRows(s.rows, short, m, |m.functions|);
            && (forall k: nat :: k < |m.functions| ==>
                  var h := OwnHandle(short, k);
                  && h in rows && rows[h].status == (if m.functions[k].declaration then DeclarationOnly else CatalogOnly)
                  && rows[h].claimOwner == None && rows[h].claimStarted == None
                  && rows[h].run == if h in s.rows then s.rows[h].run else None)
            && (forall b, k: nat :: InWorld(w, b, k) && b != short ==>
                  (OwnHandle(b, k) in rows <==> OwnHandle(b, k) in s.rows) &&
                  (OwnHandle(b, k) in s.rows ==> rows[OwnHandle(b, k)] == s.rows[OwnHandle(b, k)]))
  {
    hide WorldOk, OwnHandle, ResetRows, OneOf;
    var short, m := s.processes[p].short, w.artifacts[s.processes[p].short];
    var n := |m.functions|;
    WorldShort(w, short);
    forall k: nat | k < n
      ensures var rows, h := ResetRows(s.rows, short, m, n), OwnHandle(short, k);
              && h in rows && rows[h].status == (if m.functions[k].declaration then DeclarationOnly else CatalogOnly)
              && rows[h].claimOwner == None && rows[h].claimStarted == None
              && rows[h].run == if h in s.rows then s.rows[h].run else None
    {
      ResetRowTyped(s.rows, short, m, n, k);
      ResetRowsAt(s.rows, short, m, n, OwnHandle(short, k));
      IsOneOf(short, n, k);
    }
    forall b, k: nat | InWorld(w, b, k) && b != short
      ensures var rows, h := ResetRows(s.rows, short, m, n), OwnHandle(b, k);
              (h in rows <==> h in s.rows) && (h in s.rows ==> rows[h] == s.rows[h])
    {
      ResetRowsAt(s.rows, short, m, n, OwnHandle(b, k));
      if OneOf(short, n, OwnHandle(b, k)) {
        OneOfModule(w, short, b, k);
      }
    }
  }

  lemma IsOneOf(short: string, n: nat, k: nat)
    requires k < n
    ensures OneOf(short, n, OwnHandle(short, k))
  {
    hide OwnHandle;
  }

  /** The entity of a function after its catalog: a new one, or the old one with its name and state. */
  ghost predicate CataloguedRow(es: map<Handle, EntityRow>, after: map<Handle, EntityRow>, short: string, k: nat,
                                f: Function)
  {
    var h, state := OwnHandle(short, k), if f.declaration then "declaration_only" else "catalog_only";
    && h in after
    && after[h] == if h in es then es[h].(name := f.name, materialization := state)
                   else EntityRow(short, None, None, "function", Render(FunctionOf(k)), Some(k), f.name, None, "", state)
  }

  lemma {:induction false} CataloguedColumns(es: map<Handle, EntityRow>, short: string, m: Module, n: nat, k: nat)
    requires IsShort(short) && k < n <= |m.functions|
    ensures CataloguedRow(es, CataloguedEntities(es, short, m, n), short, k, m.functions[k])
    decreases n
  {
    hide EntityId, Render, FunctionHandle, CataloguedEntities;
    CataloguedStep(es, short, m, n, OwnHandle(short, k));
    if k < n - 1 {
      CataloguedColumns(es, short, m, n - 1, k);
      FunctionHandleInjective(short, FunctionKey(k), short, FunctionKey(n - 1));
      if FunctionKey(k) == FunctionKey(n - 1) {
        FunctionKeyInjective(k, n - 1);
      }
    } else {
      CataloguedAt(es, short, m, n - 1, OwnHandle(short, k));
      if OneOf(short, n - 1, OwnHandle(short, k)) {
        NotOneOf(short, k);
      }
      OwnHandleText(short, k);
    }
  }

  lemma NotOneOf(short: string, k: nat)
    requires IsShort(short)
    ensures !OneOf(short, k, OwnHandle(short, k))
  {
    hide FunctionHandle;
    if j: nat :| j < k && OwnHandle(short, k) == OwnHandle(short, j) {
      FunctionHandleInjective(short, FunctionKey(k), short, FunctionKey(j));
      FunctionKeyInjective(k, j);
    }
  }

  /** A catalog writes the entities of its functions and no other, and no other table. */
  lemma CatalogEntities(w: World, states: seq<State>, actions: seq<Action>, i: nat, p: Process, short: string,
                        owner: Owner, run: string)
    requires Execution(w, states, actions) && i < |actions| && actions[i] == CatalogCommit(p)
    requires p in states[i].processes && states[i].processes[p] == Reading(short, owner, run)
    ensures |states| == |actions| + 1 && WorldOk(w) && short in w.artifacts
    ensures var t, t', fs := states[i].tables, states[i + 1].tables, w.artifacts[short].functions;
            && (forall k: nat :: k < |fs| ==> CataloguedRow(t.entities, t'.entities, short, k, fs[k]))
            && (forall id :: id in t'.entities && (forall k: nat :: k < |fs| ==> id != OwnHandle(short, k)) ==>
                  id in t.entities && t'.entities[id] == t.entities[id])
            && (forall id :: id in t.entities ==> id in t'.entities)
            && t' == t.(entities := t'.entities)
  {
    hide Execution, Inv, WorldOk, OwnHandle, AfterCommit, CataloguedEntities, ResetRows, Sensible, CataloguedRow;
    StepAt(w, states, actions, i);
    ReadsInWorld(w, states[i], p);
    WorldShort(w, short);
    var es, m := states[i].tables.entities, w.artifacts[short];
    var n := |m.functions|;
    forall k: nat | k < n ensures CataloguedRow(es, states[i + 1].tables.entities, short, k, m.functions[k]) {
      CataloguedColumns(es, short, m, n, k);
    }
    forall id ensures id in es ==> id in states[i + 1].tables.entities
              ensures id in states[i + 1].tables.entities && (forall k: nat :: k < n ==> id != OwnHandle(short, k)) ==>
                      id in es && states[i + 1].tables.entities[id] == es[id]
    {
      CataloguedAt(es, short, m, n, id);
    }
  }

  /** The claim of the catalog began at the time `since` and is the owner's, or more than ten minutes have passed. */
  ghost predicate CatalogProtected(s: State, short: string, owner: Owner, since: nat) {
    s.now > since + 600 ||
    (CatalogOf(s, short).status == Cataloging && CatalogOf(s, short).claimOwner == Some(owner) &&
     CatalogOf(s, short).claimStarted == Some(since))
  }

  /** The action ends a catalog of the artifact. */
  predicate EndsReading(s: State, a: Action, short: string) {
    (a.CatalogCommit? || a.CatalogFail?) && a.p in s.processes && s.processes[a.p].Reading? && s.processes[a.p].short == short
  }

  lemma CatalogProtectedStep(w: World, s: State, a: Action, short: string, owner: Owner, since: nat)
    requires Inv(w, s) && WorldOk(w) && Sensible(w, s) && Enabled(w, s, a)
    requires CatalogProtected(s, short, owner, since) && !EndsReading(s, a, short)
    ensures CatalogProtected(Apply(w, s, a), short, owner, since)
  {
    hide OwnHandle, Inv, WorldOk, InWorld, AfterCommit, CataloguedEntities, ResetRows, CacheCurrent, Sensible, Takeable;
    if a.Commit? {
      WorksInWorld(w, s, a.p);
      CommitCatalogs(w, s, a.p);
    }
  }

  lemma CommitCatalogs(w: World, s: State, p: Process)
    requires WorldOk(w) && p in s.processes && s.processes[p].Working?
    requires InWorld(w, s.processes[p].short, s.processes[p].k)
    ensures AfterCommit(w, s, p).now == s.now && AfterCommit(w, s, p).catalogs == s.catalogs
  {
    hide WorldOk, OwnHandle, InWorld, Output, Replaced;
  }

  lemma {:induction false} CatalogProtectedUntil(w: World, states: seq<State>, actions: seq<Action>, i: nat, j: nat,
                                                 short: string, owner: Owner, since: nat)
    requires Execution(w, states, actions) && i <= j < |states|
    requires CatalogProtected(states[i], short, owner, since)
    requires forall x :: i <= x < j ==> !EndsReading(states[x], actions[x], short)
    ensures CatalogProtected(states[j], short, owner, since)
    decreases j - i
  {
    hide Inv, WorldOk, Sensible, Enabled, Apply, Init, EndsReading, CatalogProtected;
    if i < j {
      CatalogProtectedUntil(w, states, actions, i, j - 1, short, owner, since);
      StepAt(w, states, actions, j - 1);
      CatalogProtectedStep(w, states[j - 1], actions[j - 1], short, owner, since);
    }
  }

  ghost predicate TakesCatalog(states: seq<State>, actions: seq<Action>, i: nat, p: Process, short: string, owner: Owner)
    requires i < |actions| && |states| == |actions| + 1
  {
    && actions[i].CatalogClaim? && actions[i].p == p && actions[i].owner == owner && actions[i].short == short
    && p in states[i + 1].processes && states[i + 1].processes[p] == Reading(short, owner, actions[i].run)
  }

  lemma TakenCatalog(w: World, states: seq<State>, actions: seq<Action>, i: nat, p: Process, short: string, owner: Owner)
    requires Execution(w, states, actions) && i < |actions| && |states| == |actions| + 1
    requires TakesCatalog(states, actions, i, p, short, owner)
    ensures states[i + 1].now == states[i].now && CatalogProtected(states[i + 1], short, owner, states[i].now)
  {
    hide Execution, Inv, WorldOk, AfterCommit, AfterCatalogCommit, Sensible;
    StepAt(w, states, actions, i);
  }

  lemma TakenCatalogLate(w: World, states: seq<State>, actions: seq<Action>, i: nat, p: Process, short: string,
                         owner: Owner, first: Owner, since: nat)
    requires Execution(w, states, actions) && i < |actions| && |states| == |actions| + 1
    requires TakesCatalog(states, actions, i, p, short, owner) && CatalogProtected(states[i], short, first, since)
    ensures states[i].now > since + 600
  {
    hide Execution, Inv, WorldOk, AfterCommit, AfterCatalogCommit, Sensible;
    StepAt(w, states, actions, i);
  }

  /** A catalog that fails ends its run, marks the artifact and clears its claim, and touches no row and no table. */
  lemma CatalogFailExact(w: World, states: seq<State>, actions: seq<Action>, i: nat, p: Process, short: string,
                         owner: Owner, run: string)
    requires Execution(w, states, actions) && i < |actions| && actions[i] == CatalogFail(p)
    requires p in states[i].processes && states[i].processes[p] == Reading(short, owner, run)
    ensures |states| == |actions| + 1
    ensures var s, s' := states[i], states[i + 1];
            && s' == s.(processes := s.processes[p := Idle], runs := s.runs[run := RunFailed], catalogs := s'.catalogs)
            && s'.catalogs == s.catalogs[short := Catalog(CatalogFailed, None, None, CatalogOf(s, short).run)]
  {
    hide Execution, Inv, WorldOk, OwnHandle, AfterCommit, AfterCatalogCommit, Sensible;
    StepAt(w, states, actions, i);
  }

  /** So does the claim of a catalog, unless some catalog of the artifact ended meanwhile. */
  lemma CatalogTenMinutes(w: World, states: seq<State>, actions: seq<Action>, i: nat, j: nat, p: Process, owner: Owner,
                          q: Process, other: Owner, short: string)
    requires Execution(w, states, actions) && i < j < |actions| && |states| == |actions| + 1
    requires TakesCatalog(states, actions, i, p, short, owner) && TakesCatalog(states, actions, j, q, short, other)
    requires forall x :: i < x < j ==> !EndsReading(states[x], actions[x], short)
    ensures states[j].now > states[i].now + 600
  {
    hide Execution, EndsReading, TakesCatalog, CatalogProtected;
    TakenCatalog(w, states, actions, i, p, short, owner);
    CatalogProtectedUntil(w, states, actions, i + 1, j, short, owner, states[i].now);
    TakenCatalogLate(w, states, actions, j, q, short, other, owner, states[i].now);
  }
}
