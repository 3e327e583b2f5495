/** What can always be done, and what can go wrong, from any state that a run reaches. */
module LeaseScenarios {
  import opened Wrappers
  import opened Snapshot
  import opened EndToEnd
  import opened Namesakes
  import opened Leases
  import opened LeaseProperties
  import opened LeaseSafety
  import opened LeaseSnapshots
  import opened LeaseTheorems

  /** The actions can be taken one after the other, and lead from `s` to `s'`. */
  ghost predicate Plays(w: World, s: State, actions: seq<Action>, s': State)
    requires WorldOk(w)
    decreases |actions|
  {
    if actions == [] then s == s'
    else Enabled(w, s, actions[0]) && Plays(w, Apply(w, s, actions[0]), actions[1..], s')
  }

  lemma {:induction false} PlaysAppend(w: World, s: State, a: seq<Action>, t: State, b: seq<Action>, u: State)
    requires WorldOk(w) && Plays(w, s, a, t) && Plays(w, t, b, u)
    ensures Plays(w, s, a + b, u)
    decreases |a|
  {
    hide WorldOk, Enabled, Apply;
    if a == [] {
      assert a + b == b;
    } else {
      PlaysAppend(w, Apply(w, s, a[0]), a[1..], t, b, u);
      assert (a + b)[1..] == a[1..] + b && (a + b)[0] == a[0];
    }
  }

  lemma PlaysOne(w: World, s: State, a: Action, t: State)
    requires WorldOk(w) && Enabled(w, s, a) && t == Apply(w, s, a)
    ensures Plays(w, s, [a], t)
  {
    hide WorldOk, Enabled, Apply;
    assert [a][1..] == [];
  }

  /** The state after one more action. */
  lemma PlaysMore(w: World, s: State, a: seq<Action>, t: State, b: Action, u: State)
    requires WorldOk(w) && Plays(w, s, a, t) && Enabled(w, t, b) && u == Apply(w, t, b)
    ensures Plays(w, s, a + [b], u)
  {
    hide *;
    PlaysOne(w, t, b, u);
    PlaysAppend(w, s, a, t, [b], u);
  }

  predicate Free(s: State, p: Process) {
    p !in s.processes || s.processes[p].Idle?
  }

  /** A catalogued function that has a body. */
  predicate Materializable(s: State, h: Handle) {
    h in s.rows && s.rows[h].status != DeclarationOnly
  }

  // ---- Recovery ----------------------------------------------------------------------------------------------

  function Taking(short: string, k: nat, p: Process, owner: Owner, run: string): seq<Action> {
    [Tick(EXPIRY + 1), Check(p, short, k, true), Claim(p, owner, run)]
  }

  /** The new claim, and nothing else that matters. */
  predicate Taken(s: State, s': State, short: string, k: nat, p: Process, owner: Owner, run: string) {
    var h := OwnHandle(short, k);
    && h in s'.rows && s'.rows[h].status == Materializing && s'.rows[h].claimOwner == Some(owner)
    && s'.tables == s.tables && h in s.rows && s'.rows == s.rows[h := s'.rows[h]]
    && s'.processes == s.processes[p := Working(short, k, owner, run)]
    && s'.runs == s.runs[run := Running] && s'.owners == s.owners + {owner}
  }

  lemma TickStep(w: World, s: State, d: nat)
    requires Inv(w, s)
    ensures WorldOk(w) && Enabled(w, s, Tick(d)) && Apply(w, s, Tick(d)) == s.(now := s.now + d)
    ensures Inv(w, s.(now := s.now + d))
  {
    hide Inv, WorldOk, InWorld, OwnHandle, AfterCheck, AfterClaim, AfterCommit, AfterFail, AfterCatalogCommit,
         AfterCatalogClaim, AfterCatalogFail, Sensible;
    InvParts(w, s);
    TickSound(w, s, d);
  }

  lemma CheckStep(w: World, s: State, p: Process, short: string, k: nat)
    requires Inv(w, s) && InWorld(w, short, k) && Free(s, p) && Materializable(s, OwnHandle(short, k))
    ensures WorldOk(w) && Enabled(w, s, Check(p, short, k, true))
    ensures Apply(w, s, Check(p, short, k, true)) == Go(s, p, Checked(short, k))
    ensures Inv(w, Go(s, p, Checked(short, k)))
  {
    hide Inv, WorldOk, OwnHandle, AfterClaim, AfterCommit, AfterFail, AfterCatalogCommit,
         AfterCatalogClaim, AfterCatalogFail, Sensible, CacheCurrent, WorkTyped;
    InvParts(w, s);
    EntityHasRow(w, s, short, k);
    RowTells(w, s, short, k);
    CheckedTyped(w, short, k);
    GoSound(w, s, p, Checked(short, k));
  }

  lemma CheckedTyped(w: World, short: string, k: nat)
    requires InWorld(w, short, k) && !w.artifacts[short].functions[k].declaration
    ensures WorkTyped(w, Checked(short, k))
  {
  }

  lemma ClaimStep(w: World, s: State, p: Process, short: string, k: nat, owner: Owner, run: string)
    requires Inv(w, s) && p in s.processes && s.processes[p] == Checked(short, k)
    requires NewNames(s, owner, run) && ClaimSucceeds(s, OwnHandle(short, k))
    ensures WorldOk(w) && Enabled(w, s, Claim(p, owner, run))
    ensures Taken(s, Apply(w, s, Claim(p, owner, run)), short, k, p, owner, run)
    ensures Inv(w, Apply(w, s, Claim(p, owner, run)))
  {
    hide Inv, WorldOk, InWorld, OwnHandle, AfterCheck, AfterCommit, AfterFail, AfterCatalogCommit,
         AfterCatalogClaim, AfterCatalogFail, Sensible, Takeable;
    InvParts(w, s);
    ClaimSound(w, s, p, owner, run);
  }

  /** Ten minutes and a second later, any claim has expired. */
  lemma ExpiredByThen(w: World, s: State, h: Handle)
    requires Inv(w, s) && h in s.rows
    ensures Takeable(s.now + EXPIRY + 1, s.rows[h])
  {
    hide Inv;
    RowConsistentAt(w, s, h);
  }

  /** Whatever the others did, crashed or not, a process can take the claim after waiting for the expiry. */
  lemma Take(w: World, s: State, short: string, k: nat, p: Process, owner: Owner, run: string) returns (s': State)
    requires Inv(w, s) && InWorld(w, short, k) && Free(s, p) && Materializable(s, OwnHandle(short, k))
    requires NewNames(s, owner, run)
    ensures WorldOk(w) && Plays(w, s, Taking(short, k, p, owner, run), s')
    ensures Inv(w, s') && Taken(s, s', short, k, p, owner, run)
  {
    hide Inv, WorldOk, InWorld, OwnHandle, Apply, Enabled, Plays;
    var h := OwnHandle(short, k);
    InvParts(w, s);
    var later := s.(now := s.now + (EXPIRY + 1));
    TickStep(w, s, EXPIRY + 1);
    PlaysOne(w, s, Tick(EXPIRY + 1), later);
    CheckStep(w, later, p, short, k);
    var checked := Go(later, p, Checked(short, k));
    PlaysMore(w, s, [Tick(EXPIRY + 1)], later, Check(p, short, k, true), checked);
    ExpiredByThen(w, s, h);
    ClaimStep(w, checked, p, short, k, owner, run);
    s' := Apply(w, checked, Claim(p, owner, run));
    PlaysMore(w, s, [Tick(EXPIRY + 1)] + [Check(p, short, k, true)], checked, Claim(p, owner, run), s');
    assert [Tick(EXPIRY + 1)] + [Check(p, short, k, true)] + [Claim(p, owner, run)] == Taking(short, k, p, owner, run);
  }

  lemma CommitStep(w: World, s: State, p: Process, short: string, k: nat, owner: Owner, run: string)
    requires Inv(w, s) && InWorld(w, short, k)
    requires p in s.processes && s.processes[p] == Working(short, k, owner, run)
    ensures WorldOk(w) && Enabled(w, s, Commit(p))
    ensures var h, s' := OwnHandle(short, k), Apply(w, s, Commit(p));
            && Inv(w, s') && s'.processes == s.processes[p := Idle] && AllRowsBy(s', h, run)
            && h in s.rows
            && s'.rows == (if s.rows[h].claimOwner == Some(owner)
                           then s.rows[h := Row(StructureReady, None, None, Some(run), true)] else s.rows)
            && (Faithful(w.artifacts[short]) && ArtifactInv(w, s, short) ==> OneRun(w, s', short, k, run))
  {
    hide Inv, WorldOk, OwnHandle, AfterCheck, AfterCommit, AfterFail, AfterCatalogCommit,
         AfterCatalogClaim, AfterCatalogFail, AfterClaim, Sensible, OneRun, Faithful, ArtifactInv;
    InvParts(w, s);
    CommitFenced(w, s, p);
    CommitSound(w, s, p);
    forall x | x in AfterCommit(w, s, p).tables.relations && x.functionId == Some(OwnHandle(short, k)) ensures x.run == run {
      CommitRows(w, s, p, x);
    }
    if Faithful(w.artifacts[short]) && ArtifactInv(w, s, short) {
      CommitIsWhole(w, s, p);
    }
  }

  /** All relation rows of the function carry the run. */
  predicate AllRowsBy(s: State, h: Handle, run: string) {
    forall r :: r in s.tables.relations && r.functionId == Some(h) ==> r.run == run
  }

  /** What is known of an artifact carries over along any schedule. */
  lemma {:induction false} PlaysArtifact(w: World, s: State, actions: seq<Action>, s': State, short: string)
    requires WorldOk(w) && Plays(w, s, actions, s') && Inv(w, s)
    requires short in w.artifacts && Faithful(w.artifacts[short]) && ArtifactInv(w, s, short)
    ensures Inv(w, s') && ArtifactInv(w, s', short)
    decreases |actions|
  {
    hide WorldOk, Enabled, Apply, Inv, Faithful, ArtifactInv, Sensible;
    if actions != [] {
      InvParts(w, s);
      StepSound(w, s, actions[0]);
      StepArtifact(w, s, actions[0], short);
      PlaysArtifact(w, Apply(w, s, actions[0]), actions[1..], s', short);
    }
  }

  /**
   * No abandoned claim locks a definition out: from every reachable state a process that waits for the expiry can claim
   * it and make it ready, with its own run on the row and, in a faithful artifact, on the whole snapshot.
   */
  lemma AlwaysRecovers(w: World, states: seq<State>, actions: seq<Action>, i: nat, short: string, k: nat, p: Process,
                       owner: Owner, run: string) returns (s': State)
    requires Execution(w, states, actions) && i < |states| && InWorld(w, short, k)
    requires Free(states[i], p) && Materializable(states[i], OwnHandle(short, k)) && NewNames(states[i], owner, run)
    ensures Plays(w, states[i], Taking(short, k, p, owner, run) + [Commit(p)], s')
    ensures var h := OwnHandle(short, k);
            && h in s'.rows && s'.rows[h] == Row(StructureReady, None, None, Some(run), true) && AllRowsBy(s', h, run)
            && (Faithful(w.artifacts[short]) ==> OneRun(w, s', short, k, run))
  {
    hide Inv, Execution, WorldOk, OwnHandle, Apply, Enabled, Plays, Taking, OneRun, NewNames, Faithful, ArtifactInv,
         AllRowsBy;
    Reached(w, states, actions, i);
    var taken := Take(w, states[i], short, k, p, owner, run);
    if Faithful(w.artifacts[short]) {
      ReachedArtifact(w, states, actions, i, short);
      PlaysArtifact(w, states[i], Taking(short, k, p, owner, run), taken, short);
    }
    CommitStep(w, taken, p, short, k, owner, run);
    s' := Apply(w, taken, Commit(p));
    PlaysMore(w, states[i], Taking(short, k, p, owner, run), taken, Commit(p), s');
  }

  // ---- What is not promised ----------------------------------------------------------------------------------

  /**
   * The run on the row need not be the run on the snapshot: from every reachable state, a preempted process can
   * replace the snapshot of the process that preempted it. The function is ready, all its relation rows are by run `r`,
   * and in a faithful artifact so is the whole snapshot, but its row names run `r'`.
   */
  lemma PreemptedSnapshot(w: World, states: seq<State>, actions: seq<Action>, i: nat, short: string, k: nat,
                          p: Process, o: Owner, r: string, p': Process, o': Owner, r': string) returns (s': State)
    requires Execution(w, states, actions) && i < |states| && InWorld(w, short, k)
    requires p != p' && o != o' && r != r'
    requires Free(states[i], p) && Free(states[i], p') && Materializable(states[i], OwnHandle(short, k))
    requires NewNames(states[i], o, r) && NewNames(states[i], o', r')
    ensures Plays(w, states[i],
                  Taking(short, k, p, o, r) + Taking(short, k, p', o', r') + [Commit(p')] + [Commit(p)], s')
    ensures var h := OwnHandle(short, k);
            && h in s'.rows && s'.rows[h] == Row(StructureReady, None, None, Some(r'), true) && AllRowsBy(s', h, r)
            && (Faithful(w.artifacts[short]) ==> OneRun(w, s', short, k, r))
  {
    hide Inv, Execution, WorldOk, OwnHandle, Apply, Enabled, Plays, Taking, OneRun, Faithful, ArtifactInv, AllRowsBy;
    var s := states[i];
    Reached(w, states, actions, i);
    var first := Take(w, s, short, k, p, o, r);
    var second := Take(w, first, short, k, p', o', r');
    PlaysAppend(w, s, Taking(short, k, p, o, r), first, Taking(short, k, p', o', r'), second);
    CommitStep(w, second, p', short, k, o', r');
    var done := Apply(w, second, Commit(p'));
    PlaysMore(w, s, Taking(short, k, p, o, r) + Taking(short, k, p', o', r'), second, Commit(p'), done);
    if Faithful(w.artifacts[short]) {
      ReachedArtifact(w, states, actions, i, short);
      PlaysArtifact(w, s, Taking(short, k, p, o, r) + Taking(short, k, p', o', r') + [Commit(p')], done, short);
    }
    CommitStep(w, done, p, short, k, o, r);
    s' := Apply(w, done, Commit(p));
    PlaysMore(w, s, Taking(short, k, p, o, r) + Taking(short, k, p', o', r') + [Commit(p')], done, Commit(p), s');
  }

  lemma CatalogClaimStep(w: World, s: State, p: Process, short: string, owner: Owner, run: string)
    requires Inv(w, s) && short in w.artifacts && Free(s, p) && NewNames(s, owner, run)
    requires CatalogTakeable(s.now, CatalogOf(s, short))
    ensures WorldOk(w) && Enabled(w, s, CatalogClaim(p, short, owner, run))
    ensures Apply(w, s, CatalogClaim(p, short, owner, run)) == AfterCatalogClaim(s, p, short, owner, run)
    ensures Inv(w, AfterCatalogClaim(s, p, short, owner, run))
  {
    hide Inv, WorldOk, InWorld, OwnHandle, AfterCheck, AfterCommit, AfterFail, AfterCatalogCommit,
         AfterCatalogClaim, AfterCatalogFail, AfterClaim, Sensible, CatalogTakeable;
    InvParts(w, s);
    CatalogClaimSound(w, s, p, short, owner, run);
  }

  lemma CatalogFailStep(w: World, s: State, p: Process)
    requires Inv(w, s) && p in s.processes && s.processes[p].Reading?
    ensures WorldOk(w) && Enabled(w, s, CatalogFail(p)) && Apply(w, s, CatalogFail(p)) == AfterCatalogFail(s, p)
  {
    hide Inv, WorldOk, InWorld, OwnHandle, AfterCheck, AfterCommit, AfterFail, AfterCatalogCommit,
         AfterCatalogClaim, AfterCatalogFail, AfterClaim, Sensible;
    InvParts(w, s);
  }

  lemma CatalogExpired(w: World, s: State, short: string)
    requires Inv(w, s)
    ensures CatalogTakeable(s.now + EXPIRY + 1, CatalogOf(s, short))
  {
    hide OwnHandle, Orderly, CatalogsComplete, RowsNamed, Typed, WorldOk, WorkersConsistent, RowConsistent;
    assert short in s.catalogs ==> CatalogConsistent(s, s.catalogs[short]);
  }

  /** Waiting for the expiry and claiming the catalog always succeeds. */
  lemma CatalogTake(w: World, s: State, short: string, p: Process, owner: Owner, run: string) returns (s': State)
    requires Inv(w, s) && short in w.artifacts && Free(s, p) && NewNames(s, owner, run)
    ensures WorldOk(w) && Inv(w, s')
    ensures Plays(w, s, [Tick(EXPIRY + 1), CatalogClaim(p, short, owner, run)], s')
    ensures s' == AfterCatalogClaim(s.(now := s.now + (EXPIRY + 1)), p, short, owner, run)
    ensures s'.processes == s.processes[p := Reading(short, owner, run)]
  {
    hide Inv, WorldOk, InWorld, OwnHandle, Apply, Enabled, Plays;
    var later := s.(now := s.now + (EXPIRY + 1));
    TickStep(w, s, EXPIRY + 1);
    PlaysOne(w, s, Tick(EXPIRY + 1), later);
    CatalogExpired(w, s, short);
    CatalogClaimStep(w, later, p, short, owner, run);
    s' := AfterCatalogClaim(later, p, short, owner, run);
    PlaysMore(w, s, [Tick(EXPIRY + 1)], later, CatalogClaim(p, short, owner, run), s');
    assert [Tick(EXPIRY + 1)] + [CatalogClaim(p, short, owner, run)] ==
           [Tick(EXPIRY + 1), CatalogClaim(p, short, owner, run)];
  }

  /**
   * The catalog claim is not fenced: from every reachable state, a reader that was preempted can end its catalog and
   * so clear the claim of the reader that preempted it, which is still reading while any other process may claim.
   */
  lemma CatalogUnfenced(w: World, states: seq<State>, actions: seq<Action>, i: nat, short: string,
                        p: Process, o: Owner, r: string, p': Process, o': Owner, r': string) returns (s': State)
    requires Execution(w, states, actions) && i < |states| && short in w.artifacts
    requires p != p' && o != o' && r != r' && Free(states[i], p) && Free(states[i], p')
    requires NewNames(states[i], o, r) && NewNames(states[i], o', r')
    ensures Plays(w, states[i],
                  [Tick(EXPIRY + 1), CatalogClaim(p, short, o, r)] + [Tick(EXPIRY + 1), CatalogClaim(p', short, o', r')]
                  + [CatalogFail(p)], s')
    ensures p' in s'.processes && s'.processes[p'] == Reading(short, o', r')
    ensures CatalogOf(s', short).claimOwner == None && CatalogTakeable(s'.now, CatalogOf(s', short))
  {
    hide Inv, Execution, WorldOk, InWorld, OwnHandle, Apply, Enabled, Plays;
    var s := states[i];
    Reached(w, states, actions, i);
    var first := CatalogTake(w, s, short, p, o, r);
    var second := CatalogTake(w, first, short, p', o', r');
    var a, b := [Tick(EXPIRY + 1), CatalogClaim(p, short, o, r)], [Tick(EXPIRY + 1), CatalogClaim(p', short, o', r')];
    PlaysAppend(w, s, a, first, b, second);
    CatalogFailStep(w, second, p);
    s' := AfterCatalogFail(second, p);
    PlaysMore(w, s, a + b, second, CatalogFail(p), s');
  }

  /** The artifact's catalog is claimed by process `q`, which is reading it. */
  predicate HoldsCatalog(s: State, q: Process) {
    q in s.processes && s.processes[q].Reading? &&
    CatalogOf(s, s.processes[q].short).claimOwner == Some(s.processes[q].owner)
  }

  /** Every other reader that holds the claim of its artifact goes on holding it. */
  ghost predicate OthersKeep(s: State, s': State, p: Process) {
    forall q :: q != p && HoldsCatalog(s, q) ==> HoldsCatalog(s', q)
  }

  /** Another reader holds the claim of the artifact that `p` reads. */
  ghost predicate OtherHolds(s: State, p: Process)
    requires p in s.processes && s.processes[p].Reading?
  {
    exists q :: q != p && HoldsCatalog(s, q) && s.processes[q].short == s.processes[p].short
  }

  /** The claim as an UPDATE fenced by the owner of `p` would leave it. */
  function FencedClaim(s: State, p: Process): Option<Owner>
    requires p in s.processes && s.processes[p].Reading?
  {
    var l := s.processes[p];
    var claim := CatalogOf(s, l.short).claimOwner;
    if claim == Some(l.owner) then None else claim
  }

  /** Both ways of ending a catalog. */
  predicate EndsCatalog(w: World, s: State, p: Process, s': State)
    requires p in s.processes && s.processes[p].Reading? && s.processes[p].short in w.artifacts
  {
    s' == AfterCatalogFail(s, p) || s' == AfterCatalogCommit(w, s, p)
  }

  lemma EndedCatalog(w: World, s: State, p: Process, s': State)
    requires p in s.processes && s.processes[p].Reading? && s.processes[p].short in w.artifacts
    requires EndsCatalog(w, s, p, s')
    ensures s'.processes == s.processes[p := Idle]
    ensures CatalogOf(s', s.processes[p].short).claimOwner == None
    ensures forall a :: a != s.processes[p].short ==> CatalogOf(s', a) == CatalogOf(s, a)
  {
    hide CataloguedEntities, ResetRows;
  }

  /**
   * When a reader ends its catalog, by success or by failure, every other claim stays in place if and only if no other
   * reader holds the claim of that artifact; and the UPDATE does what a fenced one would do if and only if the claim is
   * nobody's or its own.
   */
  lemma CatalogEndExact(w: World, states: seq<State>, actions: seq<Action>, i: nat, p: Process, s': State)
    requires Execution(w, states, actions) && i < |states|
    requires p in states[i].processes && states[i].processes[p].Reading? && states[i].processes[p].short in w.artifacts
    requires EndsCatalog(w, states[i], p, s')
    ensures OthersKeep(states[i], s', p) <==> !OtherHolds(states[i], p)
    ensures var l, claim := states[i].processes[p], CatalogOf(states[i], states[i].processes[p].short).claimOwner;
            && (CatalogOf(s', l.short).claimOwner == FencedClaim(states[i], p) <==> claim == None || claim == Some(l.owner))
            && (claim == None || claim == Some(l.owner) ==> OthersKeep(states[i], s', p))
  {
    hide Execution, Inv, CatalogOf, EndsCatalog, WorkConsistent;
    var s := states[i];
    var l := s.processes[p];
    Reached(w, states, actions, i);
    WorkAt(w, s, p);
    EndedCatalog(w, s, p, s');
    forall q | q != p && HoldsCatalog(s, q) ensures HoldsCatalog(s', q) <==> s.processes[q].short != l.short {
    }
    var claim := CatalogOf(s, l.short).claimOwner;
    if claim == None || claim == Some(l.owner) {
      forall q | q != p && HoldsCatalog(s, q) ensures s.processes[q].short != l.short {
        assert Apart(l, s.processes[q]);
      }
    }
  }
}
