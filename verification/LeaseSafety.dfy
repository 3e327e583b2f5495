/** Every transaction keeps the invariant, cataloguing included, and so does every run. */
module LeaseSafety {
  import opened Wrappers
  import opened Keys
  import opened Adapter
  import opened Snapshot
  import opened SnapshotProperties
  import opened Partition
  import opened EndToEnd
  import opened Leases
  import opened LeaseProperties

  // ---- Catalog steps -----------------------------------------------------------------------------------------

  /** `h` is the handle of one of the first `n` functions. */
  ghost predicate OneOf(short: string, n: nat, h: Handle) {
    exists j: nat :: j < n && h == OwnHandle(short, j)
  }

  /** Cataloguing one more function. */
  lemma OneMore(short: string, n: nat, h: Handle)
    ensures OneOf(short, n + 1, h) <==> OneOf(short, n, h) || h == OwnHandle(short, n)
  {
    hide OwnHandle;
    if j: nat :| j < n + 1 && h == OwnHandle(short, j) {
      assert j < n || h == OwnHandle(short, n);
    }
  }

  predicate ClearedRow(row: Row) {
    (row.status == DeclarationOnly || row.status == CatalogOnly) && row.claimOwner.None? && row.claimStarted.None?
  }

  /** A catalog clears the rows of its own functions, keeps their run columns, and leaves all other rows alone. */
  lemma {:induction false} ResetRowsAt(rows: map<Handle, Row>, short: string, m: Module, n: nat, h: Handle)
    requires n <= |m.functions|
    ensures var after := ResetRows(rows, short, m, n);
            && (h in after <==> h in rows || OneOf(short, n, h))
            && (h in after && OneOf(short, n, h) ==>
                  ClearedRow(after[h]) && after[h].run == (if h in rows then rows[h].run else None))
            && (h in after && !OneOf(short, n, h) ==> after[h] == rows[h])
  {
    hide OwnHandle;
    if n > 0 {
      ResetRowsAt(rows, short, m, n - 1, h);
      OneMore(short, n - 1, h);
    }
  }

  /** And the row of each of them tells whether it is a declaration. */
  lemma {:induction false} ResetRowTyped(rows: map<Handle, Row>, short: string, m: Module, n: nat, j: nat)
    requires IsShort(short) && j < n <= |m.functions|
    ensures OwnHandle(short, j) in ResetRows(rows, short, m, n)
    ensures ResetRows(rows, short, m, n)[OwnHandle(short, j)].status ==
            if m.functions[j].declaration then DeclarationOnly else CatalogOnly
    decreases n
  {
    hide FunctionHandle;
    if j < n - 1 {
      ResetRowTyped(rows, short, m, n - 1, j);
      FunctionHandleInjective(short, FunctionKey(j), short, FunctionKey(n - 1));
      if FunctionKey(j) == FunctionKey(n - 1) {
        FunctionKeyInjective(j, n - 1);
      }
    }
  }

  /** A catalogued row differs from the old one in its name and state only. */
  predicate Renamed(a: EntityRow, b: EntityRow) {
    b == a.(name := b.name, materialization := b.materialization)
  }

  predicate NewFunctionRow(short: string, e: EntityRow, j: nat) {
    && e.short == short && e.local == Render(FunctionOf(j)) && e.kind == "function"
    && e.functionId == None && e.blockId == None
  }

  /** The row was made for one of the first `n` functions. */
  ghost predicate MadeFor(short: string, n: nat, id: Handle, e: EntityRow) {
    exists j: nat :: j < n && id == OwnHandle(short, j) && NewFunctionRow(short, e, j)
  }

  /** After `n` functions: theirs are there, old ones change their name and state, others are as they were. */
  ghost predicate CataloguedLike(es: map<Handle, EntityRow>, short: string, n: nat, id: Handle,
                                 after: map<Handle, EntityRow>)
  {
    && (id in after <==> id in es || OneOf(short, n, id))
    && (id in es ==> Renamed(es[id], after[id]))
    && (id in es && !OneOf(short, n, id) ==> after[id] == es[id])
    && (id in after && id !in es ==> MadeFor(short, n, id, after[id]))
  }

  lemma CataloguedStep(es: map<Handle, EntityRow>, short: string, m: Module, n: nat, id: Handle)
    requires 0 < n <= |m.functions|
    ensures var before, after := CataloguedEntities(es, short, m, n - 1), CataloguedEntities(es, short, m, n);
            if id == OwnHandle(short, n - 1) then
              id in after && after[id] == CataloguedEntity(before, short, n - 1, m.functions[n - 1])
            else
              (id in after <==> id in before) && (id in after ==> after[id] == before[id])
  {
    hide EntityId, Render, CataloguedEntity, OwnHandle;
    OwnHandleText(short, n - 1);
  }

  lemma EntityMade(es: map<Handle, EntityRow>, short: string, m: Module, n: nat)
    requires n < |m.functions|
    ensures var id, e := OwnHandle(short, n), CataloguedEntity(es, short, n, m.functions[n]);
            if id in es then Renamed(es[id], e) else NewFunctionRow(short, e, n)
    ensures forall j: nat :: var id, e := OwnHandle(short, n), CataloguedEntity(es, short, n, m.functions[n]);
              id in es && NewFunctionRow(short, es[id], j) ==> NewFunctionRow(short, e, j)
  {
    hide EntityId, Render, OwnHandle;
    OwnHandleText(short, n);
  }

  lemma MadeMore(short: string, n: nat, id: Handle, before: EntityRow, e: EntityRow)
    requires MadeFor(short, n, id, before)
    requires e == before || forall j: nat :: NewFunctionRow(short, before, j) ==> NewFunctionRow(short, e, j)
    ensures MadeFor(short, n + 1, id, e)
  {
    hide OwnHandle, NewFunctionRow;
    var j: nat :| j < n && id == OwnHandle(short, j) && NewFunctionRow(short, before, j);
    assert j < n + 1 && NewFunctionRow(short, e, j);
  }

  lemma MadeNow(short: string, n: nat, e: EntityRow)
    requires NewFunctionRow(short, e, n)
    ensures MadeFor(short, n + 1, OwnHandle(short, n), e)
  {
    hide OwnHandle, NewFunctionRow;
  }

  lemma CataloguedNone(es: map<Handle, EntityRow>, short: string, m: Module, id: Handle)
    ensures CataloguedEntities(es, short, m, 0) == es && !OneOf(short, 0, id)
    ensures id in es ==> Renamed(es[id], es[id])
  {
    hide OwnHandle;
  }

  /** What holds of an entity holds after one more function. */
  lemma CataloguedMore(es: map<Handle, EntityRow>, short: string, m: Module, n: nat, id: Handle)
    requires 0 < n <= |m.functions|
    requires CataloguedLike(es, short, n - 1, id, CataloguedEntities(es, short, m, n - 1))
    ensures CataloguedLike(es, short, n, id, CataloguedEntities(es, short, m, n))
  {
    hide OwnHandle, CataloguedEntities, CataloguedEntity, NewFunctionRow, OneOf, MadeFor;
    var before, after := CataloguedEntities(es, short, m, n - 1), CataloguedEntities(es, short, m, n);
    CataloguedStep(es, short, m, n, id);
    OneMore(short, n - 1, id);
    EntityMade(before, short, m, n - 1);
    if id !in es && id in before {
      MadeMore(short, n - 1, id, before[id], after[id]);
    } else if id !in es && id in after {
      MadeNow(short, n - 1, after[id]);
    }
  }

  lemma {:induction false} CataloguedAt(es: map<Handle, EntityRow>, short: string, m: Module, n: nat, id: Handle)
    requires n <= |m.functions|
    ensures CataloguedLike(es, short, n, id, CataloguedEntities(es, short, m, n))
  {
    hide CataloguedEntities, OneOf, Renamed, MadeFor;
    if n == 0 {
      CataloguedNone(es, short, m, id);
    } else {
      CataloguedAt(es, short, m, n - 1, id);
      CataloguedMore(es, short, m, n, id);
    }
  }

  lemma CatalogRowOk(es: map<Handle, EntityRow>, short: string, m: Module, n: nat, id: Handle)
    requires IsShort(short) && n <= |m.functions| && id in CataloguedEntities(es, short, m, n)
    requires id in es ==> KeyOk(id, es[id])
    ensures var e := CataloguedEntities(es, short, m, n)[id];
            && KeyOk(id, e)
            && (id in es ==> e.functionId == es[id].functionId && (RowOk(id, es[id]) ==> RowOk(id, e)))
            && (id !in es ==> e.functionId == None && RowOk(id, e))
  {
    hide OwnHandle, EntityId, Render, CataloguedEntities, Scope, FunctionHandle;
    CataloguedAt(es, short, m, n, id);
    var e := CataloguedEntities(es, short, m, n)[id];
    if id !in es {
      assert MadeFor(short, n, id, e);
      var j: nat :| j < n && id == OwnHandle(short, j) && NewFunctionRow(short, e, j);
      OwnHandleText(short, j);
      RenderHasColon(FunctionOf(j));
      ScopeOfRender(FunctionOf(j));
    }
  }

  /** Cataloguing keeps the tables in order. */
  lemma CatalogOrder(t: Tables, short: string, m: Module, n: nat)
    requires Orderly(t) && IsShort(short) && n <= |m.functions|
    ensures Orderly(t.(entities := CataloguedEntities(t.entities, short, m, n)))
  {
    hide KeyOk, RowOk, CataloguedEntities, Home, SeparateRelations;
    var es := CataloguedEntities(t.entities, short, m, n);
    forall id | id in es
      ensures KeyOk(id, es[id]) && (es[id].functionId.Some? ==> Home(es[id].functionId.value) == Home(id))
    {
      CatalogRowOk(t.entities, short, m, n, id);
    }
  }

  /** And well scoped, if they were. */
  lemma CatalogTables(t: Tables, short: string, m: Module, n: nat)
    requires TablesOk(t) && IsShort(short) && n <= |m.functions|
    ensures TablesOk(t.(entities := CataloguedEntities(t.entities, short, m, n)))
  {
    hide RowOk, KeyOk, CataloguedEntities;
    var es := CataloguedEntities(t.entities, short, m, n);
    OkIsKeyed(t.entities);
    forall id | id in es ensures RowOk(id, es[id]) {
      CatalogRowOk(t.entities, short, m, n, id);
    }
    forall id | id in t.entities ensures id in es && es[id].functionId == t.entities[id].functionId {
      CataloguedAt(t.entities, short, m, n, id);
      CatalogRowOk(t.entities, short, m, n, id);
    }
  }

  lemma CatalogClaimClaims(s: State, p: Process, short: string, owner: Owner, run: string)
    requires ClaimsConsistent(s) && CatalogTakeable(s.now, CatalogOf(s, short))
    ensures ClaimsConsistent(AfterCatalogClaim(s, p, short, owner, run))
  {
    var s' := AfterCatalogClaim(s, p, short, owner, run);
    forall h | h in s'.rows ensures RowConsistent(s', s'.rows[h]) {
      assert RowConsistent(s, s.rows[h]);
    }
    forall a | a in s'.catalogs ensures CatalogConsistent(s', s'.catalogs[a]) {
      assert a in s.catalogs ==> CatalogConsistent(s, s.catalogs[a]);
    }
  }

  lemma CatalogClaimWorkers(s: State, p: Process, short: string, owner: Owner, run: string)
    requires ClaimsConsistent(s) && WorkersConsistent(s) && NewNames(s, owner, run)
    requires CatalogTakeable(s.now, CatalogOf(s, short))
    ensures WorkersConsistent(AfterCatalogClaim(s, p, short, owner, run))
  {
    hide OwnHandle, WorkConsistent, Apart, RowConsistent, CatalogConsistent;
    var s' := AfterCatalogClaim(s, p, short, owner, run);
    forall q | q in s'.processes ensures WorkConsistent(s', s'.processes[q]) {
      if q == p {
        ReaderConsistent(s, s', short, owner, run);
      } else {
        NewRunConsistent(s, s', s.processes[q], owner, run);
      }
    }
    forall q, r | q in s'.processes && r in s'.processes && q != r ensures Apart(s'.processes[q], s'.processes[r]) {
      if q == p {
        NewApart(s, s.processes[r], owner, run, s'.processes[p]);
      } else if r == p {
        NewApart(s, s.processes[q], owner, run, s'.processes[p]);
      }
    }
  }

  lemma ReaderConsistent(s: State, s': State, short: string, owner: Owner, run: string)
    requires ClaimsConsistent(s) && NewNames(s, owner, run)
    requires s'.rows == s.rows && s'.runs == s.runs[run := Running] && s'.owners == s.owners + {owner}
    ensures WorkConsistent(s', Reading(short, owner, run))
  {
    hide OwnHandle;
    assert forall h :: h in s.rows ==> RowConsistent(s, s.rows[h]);
  }

  lemma NewRunConsistent(s: State, s': State, l: Activity, owner: Owner, run: string)
    requires WorkConsistent(s, l) && NewNames(s, owner, run)
    requires s'.rows == s.rows && s'.runs == s.runs[run := Running] && s'.owners == s.owners + {owner}
    ensures WorkConsistent(s', l)
  {
    hide OwnHandle;
  }

  lemma ReadingTyped(w: World, short: string, owner: Owner, run: string)
    ensures WorkTyped(w, Reading(short, owner, run))
  {
  }

  lemma CatalogClaimSound(w: World, s: State, p: Process, short: string, owner: Owner, run: string)
    requires Inv(w, s) && short in w.artifacts && NewNames(s, owner, run)
    ensures Inv(w, AfterCatalogClaim(s, p, short, owner, run))
  {
    hide WorldOk, OwnHandle, Orderly, InWorld, CatalogsComplete, RowsNamed, ClaimsConsistent, WorkersConsistent,
         CatalogTakeable, Typed;
    if !CatalogTakeable(s.now, CatalogOf(s, short)) {
      IdleTyped(w);
      GoSound(w, s, p, Idle);
    } else {
      var s' := AfterCatalogClaim(s, p, short, owner, run);
      CatalogClaimClaims(s, p, short, owner, run);
      CatalogClaimWorkers(s, p, short, owner, run);
      NamesCarry(w, s, s');
      ReadingTyped(w, short, owner, run);
      TypedCarry(w, s, s', p, Reading(short, owner, run));
    }
  }

  // ---- Ending a catalog --------------------------------------------------------------------------------------

  /** Rows that are the old ones, or cleared ones with the old run column. */
  predicate RowKept(s: State, s': State, h: Handle) {
    && h in s'.rows
    && (h in s.rows ==> s'.rows[h] == s.rows[h] || (ClearedRow(s'.rows[h]) && s'.rows[h].run == s.rows[h].run))
    && (h !in s.rows ==> ClearedRow(s'.rows[h]) && s'.rows[h].run == None)
  }

  /** Ending a reader's run, with its rows kept or cleared. */
  ghost predicate Ended(s: State, s': State, p: Process) {
    && p in s.processes && s.processes[p].Reading? && s'.processes == s.processes[p := Idle]
    && s'.runs.Keys == s.runs.Keys + {s.processes[p].run} && s'.owners == s.owners && s'.now == s.now
    && (forall run :: run in s.runs && run != s.processes[p].run ==> s'.runs[run] == s.runs[run])
    && (forall h :: h in s.rows ==> h in s'.rows)
    && (forall h :: h in s'.rows ==> RowKept(s, s', h))
  }

  lemma EndedWorker(s: State, s': State, p: Process, q: Process)
    requires WorkersConsistent(s) && Ended(s, s', p) && q in s.processes && q != p
    ensures WorkConsistent(s', s.processes[q])
  {
    hide OwnHandle;
    assert WorkConsistent(s, s.processes[q]) && Apart(s.processes[p], s.processes[q]);
  }

  lemma EndedWorkers(s: State, s': State, p: Process)
    requires WorkersConsistent(s) && Ended(s, s', p)
    ensures WorkersConsistent(s')
  {
    hide OwnHandle, WorkConsistent, Ended, RowKept;
    EndedProcesses(s, s', p);
    forall q | q in s'.processes ensures WorkConsistent(s', s'.processes[q]) {
      if q == p {
        IdleConsistent(s');
      } else {
        EndedWorker(s, s', p, q);
      }
    }
  }

  lemma EndedProcesses(s: State, s': State, p: Process)
    requires Ended(s, s', p)
    ensures p in s.processes && s'.processes == s.processes[p := Idle]
  {
  }

  lemma EndedRow(s: State, s': State, p: Process, h: Handle)
    requires ClaimsConsistent(s) && Ended(s, s', p) && h in s'.rows
    ensures RowConsistent(s', s'.rows[h])
  {
    assert RowKept(s, s', h);
    assert h in s.rows ==> RowConsistent(s, s.rows[h]);
  }

  lemma CatalogFailEnds(s: State, p: Process)
    requires p in s.processes && s.processes[p].Reading?
    ensures Ended(s, AfterCatalogFail(s, p), p)
  {
  }

  lemma CatalogCommitEnds(w: World, s: State, p: Process)
    requires p in s.processes && s.processes[p].Reading? && s.processes[p].short in w.artifacts
    ensures Ended(s, AfterCatalogCommit(w, s, p), p)
  {
    hide OwnHandle, ClearedRow, CataloguedEntities, ResetRows;
    var s', l := AfterCatalogCommit(w, s, p), s.processes[p];
    var m := w.artifacts[l.short];
    forall h ensures (h in s.rows ==> h in s'.rows) && (h in s'.rows ==> RowKept(s, s', h)) {
      ResetRowsAt(s.rows, l.short, m, |m.functions|, h);
    }
  }

  /** The claims stay consistent when a catalog ends, since its own entry is released. */
  lemma EndedClaims(s: State, s': State, p: Process, a: string, c: Catalog)
    requires ClaimsConsistent(s) && Ended(s, s', p) && s'.catalogs == s.catalogs[a := c]
    requires c.status != Cataloging && c.claimOwner.None? && c.claimStarted.None?
    ensures ClaimsConsistent(s')
  {
    hide Ended, RowConsistent, RowKept;
    assert s'.now == s.now by { EndedNow(s, s', p); }
    forall h | h in s'.rows ensures RowConsistent(s', s'.rows[h]) {
      EndedRow(s, s', p, h);
    }
    forall b | b in s'.catalogs ensures CatalogConsistent(s', s'.catalogs[b]) {
      assert b in s.catalogs ==> CatalogConsistent(s, s.catalogs[b]);
    }
  }

  lemma EndedNow(s: State, s': State, p: Process)
    requires Ended(s, s', p)
    ensures s'.now == s.now
  {
  }

  lemma ReadingFacts(s: State, p: Process)
    requires WorkersConsistent(s) && p in s.processes && s.processes[p].Reading?
    ensures s.processes[p].run in s.runs && s.runs[s.processes[p].run] == Running
  {
    hide OwnHandle;
    assert WorkConsistent(s, s.processes[p]);
  }

  lemma CatalogFailSound(w: World, s: State, p: Process)
    requires Inv(w, s) && p in s.processes && s.processes[p].Reading?
    ensures Inv(w, AfterCatalogFail(s, p))
  {
    hide WorldOk, OwnHandle, Orderly, InWorld, CatalogsComplete, RowsNamed, ClaimsConsistent, WorkersConsistent, Ended,
         Typed;
    var s', l := AfterCatalogFail(s, p), s.processes[p];
    CatalogFailEnds(s, p);
    EndedWorkers(s, s', p);
    EndedClaims(s, s', p, l.short, s'.catalogs[l.short]);
    NamesCarry(w, s, s');
    IdleTyped(w);
    TypedCarry(w, s, s', p, Idle);
  }

  /** After a catalog, the row of each function of the module still tells whether it is a declaration. */
  lemma CatalogTyped(w: World, s: State, p: Process)
    requires WorldOk(w) && Typed(w, s)
    requires p in s.processes && s.processes[p].Reading? && s.processes[p].short in w.artifacts
    ensures Typed(w, AfterCatalogCommit(w, s, p))
  {
    hide OwnHandle, CataloguedEntities, ResetRows, WorldOk, OneOf, WorkTyped;
    var s', l := AfterCatalogCommit(w, s, p), s.processes[p];
    var m := w.artifacts[l.short];
    var n := |m.functions|;
    IdleTyped(w);
    WorldShort(w, l.short);
    forall short, k: nat | InWorld(w, short, k) && OwnHandle(short, k) in s'.rows
      ensures s'.rows[OwnHandle(short, k)].status == DeclarationOnly <==> w.artifacts[short].functions[k].declaration
    {
      if short == l.short {
        ResetRowTyped(s.rows, short, m, n, k);
      } else {
        ResetRowsAt(s.rows, l.short, m, n, OwnHandle(short, k));
        if OneOf(l.short, n, OwnHandle(short, k)) {
          OneOfModule(w, l.short, short, k);
        }
      }
    }
  }

  /** After a catalog, exactly the old functions and those of its module have a row, and exactly they have an entity. */
  lemma CatalogNames(w: World, s: State, p: Process)
    requires WorldOk(w) && CatalogsComplete(w, s) && RowsNamed(w, s)
    requires p in s.processes && s.processes[p].Reading? && s.processes[p].short in w.artifacts
    ensures CatalogsComplete(w, AfterCatalogCommit(w, s, p)) && RowsNamed(w, AfterCatalogCommit(w, s, p))
  {
    hide OwnHandle, CataloguedEntities, ResetRows, Catalogued, WorldOk, OneOf;
    var s', l := AfterCatalogCommit(w, s, p), s.processes[p];
    var m := w.artifacts[l.short];
    var n := |m.functions|;
    forall h
      ensures h in s'.rows <==> h in s.rows || OneOf(l.short, n, h)
      ensures h in s'.tables.entities <==> h in s.tables.entities || OneOf(l.short, n, h)
    {
      ResetRowsAt(s.rows, l.short, m, n, h);
      CataloguedAt(s.tables.entities, l.short, m, n, h);
    }
    forall short, k | InWorld(w, short, k) && OwnHandle(short, k) in s'.rows
      ensures Catalogued(s'.tables, short, w.artifacts[short])
    {
      if OwnHandle(short, k) in s.rows {
        MoreCatalogued(s.tables, s'.tables, short, w.artifacts[short]);
      } else {
        OneOfModule(w, l.short, short, k);
        NowCatalogued(s'.tables, l.short, m);
      }
    }
    forall h | h in s'.rows ensures exists short, k :: InWorld(w, short, k) && h == OwnHandle(short, k) {
      if h in s.rows {
        var short, k :| InWorld(w, short, k) && h == OwnHandle(short, k);
      } else {
        OneOfNamed(w, l.short, h);
      }
    }
  }

  lemma MoreCatalogued(t: Tables, t': Tables, short: string, m: Module)
    requires Catalogued(t, short, m) && forall id :: id in t.entities ==> id in t'.entities
    ensures Catalogued(t', short, m)
  {
    hide EntityId, Render;
  }

  lemma NowCatalogued(t: Tables, short: string, m: Module)
    requires forall h :: OneOf(short, |m.functions|, h) ==> h in t.entities
    ensures Catalogued(t, short, m)
  {
    hide EntityId, Render, OwnHandle;
    forall n | 0 <= n < |m.functions| ensures EntityId(short, Render(FunctionOf(n))) in t.entities {
      OwnHandleText(short, n);
      assert OneOf(short, |m.functions|, OwnHandle(short, n));
    }
  }

  lemma OneOfNamed(w: World, short: string, h: Handle)
    requires short in w.artifacts && OneOf(short, |w.artifacts[short].functions|, h)
    ensures exists short, k :: InWorld(w, short, k) && h == OwnHandle(short, k)
  {
    hide OwnHandle;
    var j: nat :| j < |w.artifacts[short].functions| && h == OwnHandle(short, j);
    assert InWorld(w, short, j);
  }

  lemma OneOfModule(w: World, a: string, short: string, k: nat)
    requires WorldOk(w) && a in w.artifacts && InWorld(w, short, k)
    requires OneOf(a, |w.artifacts[a].functions|, OwnHandle(short, k))
    ensures short == a
  {
    hide OwnHandle, WorldOk;
    var j: nat :| j < |w.artifacts[a].functions| && OwnHandle(short, k) == OwnHandle(a, j);
    OwnHandleInjective(w, short, k, a, j);
  }

  lemma WorldShort(w: World, short: string)
    requires WorldOk(w) && short in w.artifacts
    ensures IsShort(short)
  {
    hide WellFormed, Select;
  }

  lemma CatalogCommitSound(w: World, s: State, p: Process)
    requires Inv(w, s) && p in s.processes && s.processes[p].Reading? && s.processes[p].short in w.artifacts
    ensures Inv(w, AfterCatalogCommit(w, s, p))
  {
    hide WorldOk, OwnHandle, Orderly, InWorld, CatalogsComplete, RowsNamed, ClaimsConsistent, WorkersConsistent, Ended,
         CataloguedEntities, ResetRows, Typed;
    var s', l := AfterCatalogCommit(w, s, p), s.processes[p];
    var m := w.artifacts[l.short];
    CatalogCommitEnds(w, s, p);
    EndedWorkers(s, s', p);
    EndedClaims(s, s', p, l.short, s'.catalogs[l.short]);
    CatalogNames(w, s, p);
    CatalogTyped(w, s, p);
    WorldShort(w, l.short);
    CatalogOrder(s.tables, l.short, m, |m.functions|);
  }

  // ---- Every step and every run ------------------------------------------------------------------------------

  lemma StepSound(w: World, s: State, a: Action)
    requires Inv(w, s) && Enabled(w, s, a)
    ensures Inv(w, Apply(w, s, a))
  {
    hide OwnHandle, Orderly, InWorld, CatalogsComplete, RowsNamed, ClaimsConsistent, WorldOk, WorkersConsistent, Typed,
         AfterCheck, AfterClaim, AfterCommit, AfterFail, AfterCatalogClaim, AfterCatalogCommit,
         AfterCatalogFail;
    match a {
      case Tick(d) => TickSound(w, s, d);
      case Check(p, short, k, refresh) => CheckSound(w, s, p, short, k, refresh);
      case Claim(p, owner, run) => ClaimSound(w, s, p, owner, run);
      case Commit(p) => CommitSound(w, s, p);
      case Fail(p) => FailSound(w, s, p);
      case Crash(p) =>
        IdleTyped(w);
        GoSound(w, s, p, Idle);
      case CatalogClaim(p, short, owner, run) => CatalogClaimSound(w, s, p, short, owner, run);
      case CatalogCommit(p) => CatalogCommitSound(w, s, p);
      case CatalogFail(p) => CatalogFailSound(w, s, p);
    }
  }

  /** Every state of every run satisfies the invariant. */
  lemma {:induction false} Reached(w: World, states: seq<State>, actions: seq<Action>, i: nat)
    requires Execution(w, states, actions) && i < |states|
    ensures Inv(w, states[i])
  {
    hide Inv, Apply, Init, Enabled, Sensible, WorldOk;
    if i == 0 {
      InitSound(w, states[0]);
    } else {
      Reached(w, states, actions, i - 1);
      StepSound(w, states[i - 1], actions[i - 1]);
    }
  }
}
