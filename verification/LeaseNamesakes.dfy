/**
 * The snapshots of an artifact are sound in every run exactly when its module is faithful: no definition has the key
 * that an earlier function is named like.
 */
module LeaseNamesakes {
  import opened Wrappers
  import opened Keys
  import opened Records
  import opened Adapter
  import opened Snapshot
  import opened SnapshotProperties
  import opened SnapshotTheorems
  import opened SnapshotContent
  import opened EndToEnd
  import opened Namesakes
  import opened Leases
  import opened LeaseProperties
  import opened LeaseSafety
  import opened LeaseSnapshots
  import opened LeaseTheorems
  import opened LeaseScenarios

  /** A function that is ready has the whole snapshot of its own graph, by one successful run. */
  ghost predicate ReadyIsOwn(w: World, s: State, short: string, k: nat)
    requires WorldOk(w) && InWorld(w, short, k)
  {
    IsReady(s, OwnHandle(short, k)) ==> exists run :: OneRun(w, s, short, k, run)
  }

  // ---- Schedules are runs ------------------------------------------------------------------------------------

  /** States joined by actions, from any state. */
  ghost predicate Path(w: World, states: seq<State>, actions: seq<Action>)
    requires WorldOk(w)
  {
    && |states| == |actions| + 1
    && forall i :: 0 <= i < |actions| ==>
         Enabled(w, states[i], actions[i]) && states[i + 1] == Apply(w, states[i], actions[i])
  }

  lemma {:induction false} PlaysPath(w: World, s: State, actions: seq<Action>, s': State) returns (states: seq<State>)
    requires WorldOk(w) && Plays(w, s, actions, s')
    ensures Path(w, states, actions) && states[0] == s && states[|actions|] == s'
    decreases |actions|
  {
    hide WorldOk, Enabled, Apply;
    if actions == [] {
      states := [s];
    } else {
      var rest := PlaysPath(w, Apply(w, s, actions[0]), actions[1..], s');
      states := [s] + rest;
      forall i | 0 <= i < |actions|
        ensures Enabled(w, states[i], actions[i]) && states[i + 1] == Apply(w, states[i], actions[i])
      {
        if i > 0 {
          assert states[i] == rest[i - 1] && states[i + 1] == rest[i] && actions[i] == actions[1..][i - 1];
        }
      }
    }
  }

  lemma PlaysExecution(w: World, s: State, actions: seq<Action>, s': State) returns (states: seq<State>)
    requires WorldOk(w) && Init(s) && Plays(w, s, actions, s')
    ensures Execution(w, states, actions) && states[|actions|] == s'
  {
    hide WorldOk, Enabled, Apply, Init, Plays;
    states := PlaysPath(w, s, actions, s');
  }

  // ---- A run in which a definition loses ---------------------------------------------------------------------

  const EMPTY_STATE: State := State(0, EMPTY_TABLES, map[], map[], map[], {}, map[])

  /** Catalogue the artifact, then materialize function `k`. */
  function Requesting(short: string, k: nat): seq<Action> {
    [CatalogClaim(0, short, 0, "catalog")] + [CatalogCommit(0)] + [Check(0, short, k, true)] + [Claim(0, 1, "run")] +
    [Commit(0)]
  }

  lemma EmptyStart(w: World, short: string)
    requires WorldOk(w)
    ensures Init(EMPTY_STATE) && Inv(w, EMPTY_STATE) && Free(EMPTY_STATE, 0) && NewNames(EMPTY_STATE, 0, "catalog")
    ensures CatalogTakeable(EMPTY_STATE.now, CatalogOf(EMPTY_STATE, short))
  {
    hide Inv, WorldOk;
    InitSound(w, EMPTY_STATE);
  }

  lemma CatalogCommitStep(w: World, s: State, p: Process, short: string, owner: Owner, run: string)
    requires Inv(w, s) && short in w.artifacts && p in s.processes && s.processes[p] == Reading(short, owner, run)
    ensures WorldOk(w) && Enabled(w, s, CatalogCommit(p))
    ensures Apply(w, s, CatalogCommit(p)) == AfterCatalogCommit(w, s, p) && Inv(w, AfterCatalogCommit(w, s, p))
  {
    hide Inv, WorldOk, InWorld, OwnHandle, AfterCheck, AfterCommit, AfterFail, AfterCatalogCommit,
         AfterCatalogClaim, AfterCatalogFail, AfterClaim, Sensible;
    InvParts(w, s);
    CatalogCommitSound(w, s, p);
  }

  /** After its catalog a definition can be claimed. */
  lemma CatalogueDefinition(w: World, s: State, p: Process, k: nat)
    requires WorldOk(w) && p in s.processes && s.processes[p].Reading? && InWorld(w, s.processes[p].short, k)
    requires !w.artifacts[s.processes[p].short].functions[k].declaration
    ensures var s', h := AfterCatalogCommit(w, s, p), OwnHandle(s.processes[p].short, k);
            && h in s'.rows && s'.rows[h].status == CatalogOnly && s'.processes == s.processes[p := Idle]
            && s'.owners == s.owners && s'.runs == s.runs[s.processes[p].run := Success] && s'.now == s.now
  {
    hide OwnHandle, WorldOk, ResetRows, CataloguedEntities;
    var l := s.processes[p];
    var m := w.artifacts[l.short];
    WorldShort(w, l.short);
    ResetRowTyped(s.rows, l.short, m, |m.functions|, k);
  }

  /** The rows stored for `k` are those of `j`, which its key selects. */
  ghost predicate HoldsGraph(w: World, s: State, short: string, k: nat, j: nat, run: string)
    requires InWorld(w, short, k)
  {
    var h, m := OwnHandle(short, k), w.artifacts[short];
    && Select(m, FunctionKey(k)) == Some(j) && j < |m.functions| && WellFormed(m, m.functions[j])
    && RowsOf(h, s.tables.relations) == GraphRows(short, h, m, j, run)
  }

  /** The first definition asked for in an empty store: it becomes ready with the graph that its key selects. */
  lemma FirstRequest(w: World, short: string, k: nat) returns (s': State, j: nat)
    requires WorldOk(w) && InWorld(w, short, k) && !w.artifacts[short].functions[k].declaration
    ensures Plays(w, EMPTY_STATE, Requesting(short, k), s')
    ensures IsReady(s', OwnHandle(short, k)) && CacheCurrent(s', OwnHandle(short, k)) && IsShort(short)
    ensures HoldsGraph(w, s', short, k, j, "run")
  {
    hide Inv, WorldOk, OwnHandle, Apply, Enabled, Plays, AfterCatalogCommit, AfterCommit, Execution, RowsOf,
         GraphRows, WellFormed, Select, CertifiedBy, ManifestCurrent, Graph, EmittedAll, Keyed, Catalogued, After,
         Taken, ClaimSucceeds, Free;
    var h := OwnHandle(short, k);
    EmptyStart(w, short);
    CatalogClaimStep(w, EMPTY_STATE, 0, short, 0, "catalog");
    var reading := AfterCatalogClaim(EMPTY_STATE, 0, short, 0, "catalog");
    PlaysOne(w, EMPTY_STATE, CatalogClaim(0, short, 0, "catalog"), reading);
    assert reading.processes == map[0 := Reading(short, 0, "catalog")];
    CatalogCommitStep(w, reading, 0, short, 0, "catalog");
    CatalogueDefinition(w, reading, 0, k);
    var ready := AfterCatalogCommit(w, reading, 0);
    var a := [CatalogClaim(0, short, 0, "catalog")];
    PlaysMore(w, EMPTY_STATE, a, reading, CatalogCommit(0), ready);
    NowFree(ready, 0);
    CheckStep(w, ready, 0, short, k);
    var checked := Go(ready, 0, Checked(short, k));
    PlaysMore(w, EMPTY_STATE, a + [CatalogCommit(0)], ready, Check(0, short, k, true), checked);
    NowClaimable(checked, h);
    ClaimStep(w, checked, 0, short, k, 1, "run");
    var working := Apply(w, checked, Claim(0, 1, "run"));
    PlaysMore(w, EMPTY_STATE, a + [CatalogCommit(0)] + [Check(0, short, k, true)], checked, Claim(0, 1, "run"), working);
    TakenWorks(checked, working, short, k, 0, 1, "run");
    CommitStep(w, working, 0, short, k, 1, "run");
    s' := Apply(w, working, Commit(0));
    PlaysMore(w, EMPTY_STATE, a + [CatalogCommit(0)] + [Check(0, short, k, true)] + [Claim(0, 1, "run")], working,
              Commit(0), s');
    CommitApplies(w, working, 0);
    j := CommitGraph(w, working, 0);
    CertifiedIsCurrent(s'.tables, h, "run");
  }

  lemma NowFree(s: State, p: Process)
    requires p in s.processes && s.processes[p] == Idle
    ensures Free(s, p)
  {
  }

  lemma NowClaimable(s: State, h: Handle)
    requires h in s.rows && s.rows[h].status == CatalogOnly
    ensures ClaimSucceeds(s, h)
  {
  }

  lemma TakenWorks(s: State, s': State, short: string, k: nat, p: Process, owner: Owner, run: string)
    requires Taken(s, s', short, k, p, owner, run)
    ensures var h := OwnHandle(short, k);
            && p in s'.processes && s'.processes[p] == Working(short, k, owner, run)
            && h in s'.rows && s'.rows[h].claimOwner == Some(owner) && s'.tables == s.tables
            && h in s.rows && s'.rows == s.rows[h := s'.rows[h]]
  {
    hide OwnHandle;
  }

  lemma CommitApplies(w: World, s: State, p: Process)
    requires WorldOk(w) && Inv(w, s) && Enabled(w, s, Commit(p))
    ensures InWorld(w, s.processes[p].short, s.processes[p].k) && Apply(w, s, Commit(p)) == AfterCommit(w, s, p)
  {
    hide Inv, WorldOk, OwnHandle, AfterCheck, AfterCommit, AfterFail, AfterCatalogCommit, AfterCatalogClaim,
         AfterCatalogFail, AfterClaim, InWorld;
    InvParts(w, s);
    WorksInWorld(w, s, p);
  }

  /** If another function is selected, what is ready is not the function's own snapshot. */
  lemma WrongRows(w: World, s: State, short: string, k: nat, j: nat, run: string)
    requires WorldOk(w) && InWorld(w, short, k) && IsShort(short) && IsReady(s, OwnHandle(short, k)) && j != k
    requires !w.artifacts[short].functions[k].declaration
    requires j < |w.artifacts[short].functions| && WellFormed(w.artifacts[short], w.artifacts[short].functions[j])
    requires RowsOf(OwnHandle(short, k), s.tables.relations) ==
             GraphRows(short, OwnHandle(short, k), w.artifacts[short], j, run)
    ensures !ReadyIsOwn(w, s, short, k)
  {
    hide OwnHandle, RowsOf, WorldOk, RelationsOf, SourcesOf, SourcesIn, OwnsExactly, CertifiedBy, Graph, EmittedAll,
         IsShort, BlockInRange;
    FunctionOk(w, short, k);
    var h, m := OwnHandle(short, k), w.artifacts[short];
    forall r ensures !OneRun(w, s, short, k, r) {
      GraphsDiffer(short, h, m, j, k, run, r);
    }
  }

  // ---- The exact condition -----------------------------------------------------------------------------------

  /** A module that is not faithful has a run after which a definition is ready, and cached, with other rows than its own. */
  lemma UnfaithfulRun(w: World, short: string) returns (states: seq<State>, actions: seq<Action>, k: nat)
    requires WorldOk(w) && short in w.artifacts && !Faithful(w.artifacts[short])
    ensures Execution(w, states, actions) && InWorld(w, short, k)
    ensures var s, h := states[|actions|], OwnHandle(short, k);
            IsReady(s, h) && CacheCurrent(s, h) && !ReadyIsOwn(w, s, short, k)
  {
    hide WorldOk, Execution, OwnHandle, Select, RowsOf, GraphRows, WellFormed, Plays, CacheCurrent, Init, Requesting;
    var m := w.artifacts[short];
    k :| 0 <= k < |m.functions| && !m.functions[k].declaration && Select(m, FunctionKey(k)) != Some(k);
    var s', j := FirstRequest(w, short, k);
    WrongRows(w, s', short, k, j, "run");
    EmptyStart(w, short);
    actions := Requesting(short, k);
    states := PlaysExecution(w, EMPTY_STATE, actions, s');
  }

  /** In every run every ready function of the artifact has its own whole snapshot, if and only if the module is faithful. */
  lemma SnapshotsExact(w: World, short: string)
    requires WorldOk(w) && short in w.artifacts
    ensures Faithful(w.artifacts[short]) <==>
            forall states, actions, i, k: nat ::
              Execution(w, states, actions) && 0 <= i < |states| && InWorld(w, short, k) ==>
                ReadyIsOwn(w, states[i], short, k)
  {
    hide WorldOk, Execution, OwnHandle, OneRun, Faithful, CacheCurrent, InWorld;
    if Faithful(w.artifacts[short]) {
      forall states, actions, i, k: nat | Execution(w, states, actions) && 0 <= i < |states| && InWorld(w, short, k)
        ensures ReadyIsOwn(w, states[i], short, k)
      {
        ArtifactOf(w, short, k);
        ReadyIsSound(w, states, actions, i, short, k);
      }
    } else {
      var states, actions, k := UnfaithfulRun(w, short);
      RunLength(w, states, actions);
      assert !ReadyIsOwn(w, states[|actions|], short, k);
    }
  }

  lemma ArtifactOf(w: World, short: string, k: nat)
    requires InWorld(w, short, k)
    ensures short in w.artifacts
  {
  }

  lemma RunLength(w: World, states: seq<State>, actions: seq<Action>)
    requires Execution(w, states, actions)
    ensures |states| == |actions| + 1
  {
    hide WorldOk, Init, Enabled, Apply;
  }

  // ---- The namesake loses too --------------------------------------------------------------------------------

  /** The graph of `j`, which the key of `k` selects, was committed for `k`; nothing else changed its row or manifest. */
  ghost predicate Rematerialized(w: World, s: State, s': State, short: string, k: nat, j: nat, run: string)
    requires InWorld(w, short, k)
  {
    var h, m := OwnHandle(short, k), w.artifacts[short];
    && Select(m, FunctionKey(k)) == Some(j) && j <= k && WellFormed(m, m.functions[j])
    && Keyed(s.tables.entities) && IsShort(short) && Catalogued(s.tables, short, m)
    && s'.tables == After(s.tables, short, h, EmittedAll(Graph(m, j)), run)
    && h in s.rows && h in s'.rows && s'.rows == s.rows[h := s'.rows[h]]
    && forall g :: g != h && ManifestCurrent(s.tables, g) ==> ManifestCurrent(s'.tables, g)
  }

  /** One more materialization of `k`: its claim is taken, and the graph that its key selects is committed for it. */
  lemma Rematerialize(w: World, s: State, short: string, k: nat, p: Process, owner: Owner, run: string)
    returns (s': State, j: nat)
    requires Inv(w, s) && InWorld(w, short, k) && Free(s, p) && Materializable(s, OwnHandle(short, k))
    requires NewNames(s, owner, run)
    ensures WorldOk(w) && Plays(w, s, Taking(short, k, p, owner, run) + [Commit(p)], s')
    ensures Inv(w, s') && Free(s', p) && Materializable(s', OwnHandle(short, k))
    ensures s'.owners == s.owners + {owner} && s'.runs == s.runs[run := Success]
    ensures Rematerialized(w, s, s', short, k, j, run)
  {
    hide Inv, WorldOk, OwnHandle, Apply, Enabled, Plays, Taking, AfterCommit, Graph, EmittedAll, WellFormed, Select,
         Catalogued, Keyed, RowsOf, GraphRows, CertifiedBy, After, Taken, ManifestCurrent, IsShort, GoodRecords;
    var taken := Take(w, s, short, k, p, owner, run);
    var h := OwnHandle(short, k);
    TakenWorks(s, taken, short, k, p, owner, run);
    TakenNames(s, taken, short, k, p, owner, run);
    CommitStep(w, taken, p, short, k, owner, run);
    s' := Apply(w, taken, Commit(p));
    PlaysMore(w, s, Taking(short, k, p, owner, run), taken, Commit(p), s');
    CommitApplies(w, taken, p);
    CommitFenced(w, taken, p);
    j := CommitGraph(w, taken, p);
    AdapterRecordsFit(s.tables, short, w.artifacts[short], j);
    AfterCertified(s.tables, short, FunctionKey(j), h, EmittedAll(Graph(w.artifacts[short], j)), run);
  }

  lemma TakenNames(s: State, s': State, short: string, k: nat, p: Process, owner: Owner, run: string)
    requires Taken(s, s', short, k, p, owner, run)
    ensures s'.runs == s.runs[run := Running] && s'.owners == s.owners + {owner}
  {
    hide OwnHandle;
  }

  /**
   * Being found by one's own key is not enough: from every reachable state in which the namesake `j` is ready and cached,
   * materializing `k` and refreshing it once leaves `j` ready and cached without the rows of its first block.
   */
  lemma NamesakeLoses(w: World, states: seq<State>, actions: seq<Action>, i: nat, short: string, j: nat, k: nat,
                      p: Process, o: Owner, r: string, o': Owner, r': string) returns (s': State)
    requires Execution(w, states, actions) && i < |states| && InWorld(w, short, j) && InWorld(w, short, k) && j != k
    requires Select(w.artifacts[short], FunctionKey(k)) == Some(j) && !w.artifacts[short].functions[j].declaration
    requires CacheCurrent(states[i], OwnHandle(short, j))
    requires Free(states[i], p) && Materializable(states[i], OwnHandle(short, k))
    requires NewNames(states[i], o, r) && NewNames(states[i], o', r') && o != o' && r != r'
    ensures Plays(w, states[i],
                  Taking(short, k, p, o, r) + [Commit(p)] + (Taking(short, k, p, o', r') + [Commit(p)]), s')
    ensures CacheCurrent(s', OwnHandle(short, j)) && !ReadyIsOwn(w, s', short, j)
  {
    hide Inv, Execution, WorldOk, OwnHandle, Plays, Taking, Graph, EmittedAll, WellFormed, Select, Catalogued, Keyed,
         RowsOf, GraphRows, After, ManifestCurrent, IsShort, ReadyIsOwn, Replaced;
    var h, own, m := OwnHandle(short, k), OwnHandle(short, j), w.artifacts[short];
    Reached(w, states, actions, i);
    HandlesDiffer(w, states[i], short, j, k);
    var s1, a := Rematerialize(w, states[i], short, k, p, o, r);
    var s2, b := Rematerialize(w, s1, short, k, p, o', r');
    s' := s2;
    PlaysAppend(w, states[i], Taking(short, k, p, o, r) + [Commit(p)], s1, Taking(short, k, p, o', r') + [Commit(p)], s2);
    DefinitionHasBody(w, short, j);
    NamesakeIsRobbed(states[i].tables, short, m, j, k, r, r');
    assert forall x :: RowsOf(own, s2.tables.relations) != GraphRows(short, own, m, j, x);
    NotOwn(w, s2, short, j);
  }

  lemma HandlesDiffer(w: World, s: State, short: string, j: nat, k: nat)
    requires Inv(w, s) && InWorld(w, short, j) && InWorld(w, short, k) && j != k
    ensures OwnHandle(short, j) != OwnHandle(short, k)
  {
    hide Inv, OwnHandle, WorldOk, InWorld;
    InvParts(w, s);
    if OwnHandle(short, j) == OwnHandle(short, k) {
      OwnHandleInjective(w, short, j, short, k);
    }
  }

  lemma DefinitionHasBody(w: World, short: string, j: nat)
    requires WorldOk(w) && InWorld(w, short, j) && !w.artifacts[short].functions[j].declaration
    ensures IsShort(short) && WellFormed(w.artifacts[short], w.artifacts[short].functions[j])
    ensures |w.artifacts[short].functions[j].blocks| > 0
  {
    hide WorldOk, BlockInRange, IsShort;
    FunctionOk(w, short, j);
  }

  lemma NotOwn(w: World, s: State, short: string, j: nat)
    requires WorldOk(w) && InWorld(w, short, j) && IsReady(s, OwnHandle(short, j))
    requires WellFormed(w.artifacts[short], w.artifacts[short].functions[j])
    requires forall x :: RowsOf(OwnHandle(short, j), s.tables.relations) !=
                         GraphRows(short, OwnHandle(short, j), w.artifacts[short], j, x)
    ensures !ReadyIsOwn(w, s, short, j)
  {
    hide OwnHandle, RowsOf, WorldOk, RelationsOf, SourcesOf, SourcesIn, OwnsExactly, CertifiedBy, Graph, EmittedAll,
         WellFormed;
    var h := OwnHandle(short, j);
    forall r ensures !OneRun(w, s, short, j, r) {
      assert RowsOf(h, s.tables.relations) != GraphRows(short, h, w.artifacts[short], j, r);
    }
  }
}
