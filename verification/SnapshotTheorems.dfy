/** The promises of a snapshot replacement: only the function's own rows change, and doing it twice changes nothing. */
module SnapshotTheorems {
  import opened Wrappers
  import opened Keys
  import opened Records
  import opened Snapshot
  import opened SnapshotProperties
  import R = Relations

  // ---- Other functions ---------------------------------------------------------------------------------------

  /** An existing entity that a record claims lies in this function or in the module. */
  lemma ClaimedBefore(t: Tables, short: string, key: string, f: Handle, rs: seq<Record<string>>, id: Handle)
    requires Setting(t, short, key, f, rs) && id in t.entities && id in Ids(short, EntitiesOf(rs))
    ensures t.entities[id].functionId == None || t.entities[id].functionId == Some(f)
  {
    hide EntityId, Scope, Unambiguous, RelationOk, EntitiesOf, FunctionHandle, IsShort, ModuleScoped;
    var e := t.entities[id];
    assert RowOk(id, e);
    IdsExact(short, EntitiesOf(rs), id);
    var i :| 0 <= i < |EntitiesOf(rs)| && EntityId(short, EntitiesOf(rs)[i].local) == id;
    var r := EntitiesOf(rs)[i];
    assert r in EntitiesOf(rs) && r in rs;
    IdsTellKeys(short, r.local, e.short, e.local);
  }

  /** An entity of another function keeps its whole row, and no entity is moved to another function. */
  lemma OtherEntitiesSurvive(t: Tables, short: string, key: string, f: Handle, rs: seq<Record<string>>, run: string,
                             g: Handle, id: Handle)
    requires Setting(t, short, key, f, rs) && g != f
    ensures var t' := After(t, short, f, rs, run);
            && (Owned(t.entities, g, id) <==> Owned(t'.entities, g, id))
            && (Owned(t.entities, g, id) ==> t'.entities[id] == t.entities[id])
  {
    hide After, Setting, EntityId, Scope, RowOk;
    var t' := After(t, short, f, rs, run);
    AfterOutside(t, short, key, f, rs, run, id);
    if id in Ids(short, EntitiesOf(rs)) {
      ClaimedOwner(t, short, key, f, rs, run, id);
      if id in t.entities {
        ClaimedBefore(t, short, key, f, rs, id);
      }
    }
  }

  /** A claimed entity ends up in this function or in the module. */
  lemma ClaimedOwner(t: Tables, short: string, key: string, f: Handle, rs: seq<Record<string>>, run: string, id: Handle)
    requires Setting(t, short, key, f, rs) && id in Ids(short, EntitiesOf(rs))
    ensures var t' := After(t, short, f, rs, run);
            id in t'.entities && (t'.entities[id].functionId == None || t'.entities[id].functionId == Some(f))
  {
    hide After, EntityId, Scope, FunctionHandle, IsShort, ModuleScoped, GoodRecords, Target;
    AfterOutside(t, short, key, f, rs, run, id);
    EntitiesStayOk(t, short, key, f, rs, run);
    StillGood(t, short, key, f, rs, run);
    ClaimedBefore(After(t, short, f, rs, run), short, key, f, rs, id);
  }

  /** Functions and globals stay in the module; a record brings opcode and text up to date, and nothing else changes. */
  lemma ModuleEntitiesSurvive(t: Tables, short: string, key: string, f: Handle, rs: seq<Record<string>>, run: string,
                              id: Handle)
    requires Setting(t, short, key, f, rs) && id in t.entities && t.entities[id].functionId == None
    ensures var e, t', ents := t.entities[id], After(t, short, f, rs, run), EntitiesOf(rs);
            && id in t'.entities && t'.entities[id].functionId == None
            && (id !in Ids(short, ents) ==> t'.entities[id] == e)
            && (forall i :: 0 <= i < |ents| && EntityId(short, ents[i].local) == id ==>
                  t'.entities[id] == e.(opcode := ents[i].opcode, text := ents[i].text, materialization := "structure_ready"))
  {
    hide After, EntityId, Scope, GoodRecords, Target, RelationOk, FunctionHandle;
    var t', ents := After(t, short, f, rs, run), EntitiesOf(rs);
    AfterOutside(t, short, key, f, rs, run, id);
    KeptStays(t, short, key, f, rs, run, id);
    forall i | 0 <= i < |ents| && EntityId(short, ents[i].local) == id
      ensures t'.entities[id] ==
              t.entities[id].(opcode := ents[i].opcode, text := ents[i].text, materialization := "structure_ready")
    {
      SettingFits(t, short, key, f, rs);
      AfterRow(t, short, key, f, rs, run, i);
    }
  }

  /** The relation rows of every other function survive in order, whatever they point to. */
  lemma OtherRelationsSurvive(t: Tables, short: string, key: string, f: Handle, rs: seq<Record<string>>, run: string,
                              g: Handle)
    requires Setting(t, short, key, f, rs) && g != f
    ensures RowsOf(g, After(t, short, f, rs, run).relations) == RowsOf(g, t.relations)
  {
    hide After, EntityId, EntitiesOk, RelationOk, GoodRecords, Target, KeptRelations, RowsOf;
    var added := RelationRows(short, f, run, RelationsOf(rs));
    SettingFits(t, short, key, f, rs);
    AfterParts(t, short, key, f, rs, run);
    KeptRelationsOthers(t, f, g, t.relations);
    RowsOfAppend(g, KeptRelations(t.entities, f, t.relations), added);
    RowsOfAll(g, added, f);
    assert RowsOf(g, t.relations) + [] == RowsOf(g, t.relations);
  }

  /** The source rows of entities of function `g`, in table order. */
  function SourcesIn(es: map<Handle, EntityRow>, g: Handle, rows: seq<SourceRow>): seq<SourceRow> {
    if rows == [] then []
    else
      var init, last := SourcesIn(es, g, rows[..|rows| - 1]), rows[|rows| - 1];
      if Owned(es, g, last.entity) then init + [last] else init
  }

  lemma {:induction false} SourcesInAppend(es: map<Handle, EntityRow>, g: Handle, a: seq<SourceRow>, b: seq<SourceRow>)
    ensures SourcesIn(es, g, a + b) == SourcesIn(es, g, a) + SourcesIn(es, g, b)
  {
    if b == [] {
      assert a + b == a;
    } else {
      SourcesInAppend(es, g, a, b[..|b| - 1]);
      assert (a + b)[..|a + b| - 1] == a + b[..|b| - 1];
    }
  }

  lemma {:induction false} SourcesInNone(es: map<Handle, EntityRow>, g: Handle, rows: seq<SourceRow>)
    requires forall s :: s in rows ==> !Owned(es, g, s.entity)
    ensures SourcesIn(es, g, rows) == []
  {
    if rows != [] {
      assert rows[|rows| - 1] in rows;
      SourcesInNone(es, g, rows[..|rows| - 1]);
    }
  }

  lemma {:induction false} SourcesInKept(a: map<Handle, EntityRow>, b: map<Handle, EntityRow>, f: Handle, g: Handle,
                                         rows: seq<SourceRow>)
    requires f != g && (forall id :: Owned(a, g, id) <==> Owned(b, g, id))
    ensures SourcesIn(b, g, KeptSources(a, f, rows)) == SourcesIn(a, g, rows)
  {
    if rows != [] {
      var init, last := rows[..|rows| - 1], rows[|rows| - 1];
      SourcesInKept(a, b, f, g, init);
      var kept := KeptSources(a, f, init);
      assert (kept + [last])[..|kept|] == kept;
    }
  }

  /** The source rows of every other function survive in order. */
  lemma OtherSourcesSurvive(t: Tables, short: string, key: string, f: Handle, rs: seq<Record<string>>, run: string,
                            g: Handle)
    requires Setting(t, short, key, f, rs) && g != f
    ensures var t' := After(t, short, f, rs, run);
            SourcesIn(t'.entities, g, t'.sources) == SourcesIn(t.entities, g, t.sources)
  {
    hide After, EntityId, Scope, TablesOk, GoodRecords, Target, KeptSources, SourcesIn, Owned, Setting;
    var t', added := After(t, short, f, rs, run), SourceRows(short, run, SourcesOf(rs));
    SettingFits(t, short, key, f, rs);
    AfterParts(t, short, key, f, rs, run);
    forall id ensures Owned(t.entities, g, id) <==> Owned(t'.entities, g, id) {
      OtherEntitiesSurvive(t, short, key, f, rs, run, g, id);
    }
    SourcesInKept(t.entities, t'.entities, f, g, t.sources);
    SourcesInAppend(t'.entities, g, KeptSources(t.entities, f, t.sources), added);
    forall s | s in added ensures !Owned(t'.entities, g, s.entity) {
      FreshSourceOwned(t, short, key, f, rs, run, s);
      OwnedByOne(t'.entities, f, g, s.entity);
    }
    SourcesInNone(t'.entities, g, added);
    assert SourcesIn(t.entities, g, t.sources) + [] == SourcesIn(t.entities, g, t.sources);
  }

  lemma OwnedByOne(es: map<Handle, EntityRow>, f: Handle, g: Handle, id: Handle)
    requires Owned(es, f, id) && f != g
    ensures !Owned(es, g, id)
  {
  }

  lemma FreshSourceOwned(t: Tables, short: string, key: string, f: Handle, rs: seq<Record<string>>, run: string,
                         s: SourceRow)
    requires Setting(t, short, key, f, rs) && s in SourceRows(short, run, SourcesOf(rs))
    ensures Owned(After(t, short, f, rs, run).entities, f, s.entity)
  {
    hide After, EntityId, RelationOk, Unambiguous, Scope, RowOk, ModuleScoped;
    var srcs := SourcesOf(rs);
    var i :| 0 <= i < |srcs| && SourceRows(short, run, srcs)[i] == s;
    assert srcs[i] in srcs && srcs[i] in rs;
    var j := DeclaredRecord(rs, srcs[i].entity);
    assert EntitiesOf(rs)[j] in rs;
    EndpointPlaced(t, short, key, f, rs, run, srcs[i].entity);
  }

  /** The manifests of other functions are untouched, and this function's becomes exactly the contract. */
  lemma ManifestExact(t: Tables, short: string, key: string, f: Handle, rs: seq<Record<string>>, run: string,
                      g: Handle, c: string)
    requires Setting(t, short, key, f, rs)
    ensures var caps := After(t, short, f, rs, run).capabilities;
            if g == f then
              ((f, c) in caps <==> c in CONTRACT) && (c in CONTRACT ==> caps[(f, c)] == Capability(CONTRACT[c], run))
            else
              ((g, c) in caps <==> (g, c) in t.capabilities) && ((g, c) in caps ==> caps[(g, c)] == t.capabilities[(g, c)])
  {
    hide After, Setting, EntityId;
    SettingFits(t, short, key, f, rs);
    AfterParts(t, short, key, f, rs, run);
    CertifiedAt(t.capabilities, f, run, g, c);
  }

  lemma CertifiedAt(caps: map<(Handle, string), Capability>, f: Handle, run: string, g: Handle, c: string)
    ensures var after := Certified(caps, f, run);
            if g == f then
              ((f, c) in after <==> c in CONTRACT) && (c in CONTRACT ==> after[(f, c)] == Capability(CONTRACT[c], run))
            else
              ((g, c) in after <==> (g, c) in caps) && ((g, c) in after ==> after[(g, c)] == caps[(g, c)])
  {
  }

  // ---- This function -----------------------------------------------------------------------------------------

  /** The function's relation rows are exactly the new ones, in record order, all carrying the committing run. */
  lemma RelationsReplaced(t: Tables, short: string, key: string, f: Handle, rs: seq<Record<string>>, run: string)
    requires Fitting(t, short, key, rs)
    ensures RowsOf(f, After(t, short, f, rs, run).relations) == RelationRows(short, f, run, RelationsOf(rs))
    ensures forall r :: r in RowsOf(f, After(t, short, f, rs, run).relations) ==> r.run == run
  {
    hide After, EntityId, Keyed, GoodRecords, KeptRelations, RowsOf;
    var added := RelationRows(short, f, run, RelationsOf(rs));
    AfterParts(t, short, key, f, rs, run);
    KeptHasNone(t.entities, f, t.relations);
    RowsOfAppend(f, KeptRelations(t.entities, f, t.relations), added);
    RowsOfAll(f, added, f);
    assert [] + added == added;
  }

  lemma {:induction false} KeptHasNone(es: map<Handle, EntityRow>, f: Handle, rows: seq<R.Relation>)
    ensures RowsOf(f, KeptRelations(es, f, rows)) == []
  {
    if rows != [] {
      KeptHasNone(es, f, rows[..|rows| - 1]);
      var kept := KeptRelations(es, f, rows[..|rows| - 1]);
      assert (kept + [rows[|rows| - 1]])[..|kept|] == kept;
    }
  }

  // ---- Twice -------------------------------------------------------------------------------------------------

  /** The records are still good for the tables they produced. */
  lemma StillGood(t: Tables, short: string, key: string, f: Handle, rs: seq<Record<string>>, run: string)
    requires Setting(t, short, key, f, rs)
    ensures Setting(After(t, short, f, rs, run), short, key, f, rs)
  {
    hide After, EntityId, Scope, TablesOk, Unambiguous, Declares, RowOk, ModuleScoped;
    var t' := After(t, short, f, rs, run);
    TablesStayOk(t, short, key, f, rs, run);
    AfterOutside(t, short, key, f, rs, run, f);
    var i := FunctionDeclared(t, short, key, f, rs);
    forall r | r in rs && r.Relation?
      ensures EntityId(short, r.src) in t'.entities && EntityId(short, r.dst) in t'.entities
    {
      EndpointPlaced(t, short, key, f, rs, run, r.src);
      EndpointPlaced(t, short, key, f, rs, run, r.dst);
    }
  }

  /** A first replacement leaves the same entities standing before the second one deletes. */
  lemma KeptAgain(t: Tables, short: string, key: string, f: Handle, rs: seq<Record<string>>, run: string, id: Handle)
    requires Setting(t, short, key, f, rs) && id !in Ids(short, EntitiesOf(rs))
    ensures var again := KeptEntities(After(t, short, f, rs, run).entities, f);
            && (id in again <==> id in KeptEntities(t.entities, f))
            && (id in again ==> again[id] == KeptEntities(t.entities, f)[id])
  {
    hide After, Setting, EntityId;
    AfterOutside(t, short, key, f, rs, run, id);
  }

  /** Each record's row comes out the same the second time. */
  lemma UpsertAgain(t: Tables, short: string, key: string, f: Handle, rs: seq<Record<string>>, run: string, i: nat)
    requires Setting(t, short, key, f, rs) && i < |EntitiesOf(rs)|
    ensures EntitiesOf(rs)[i].Entity?
    ensures Upsert(KeptEntities(After(t, short, f, rs, run).entities, f), short, EntitiesOf(rs)[i]) ==
            Upsert(KeptEntities(t.entities, f), short, EntitiesOf(rs)[i])
  {
    hide After, EntityId, RelationOk, Unambiguous, Scope, BlockIdFor, EntitiesOf;
    var t', r := After(t, short, f, rs, run), EntitiesOf(rs)[i];
    var id := EntityId(short, r.local);
    assert r in EntitiesOf(rs) && r in rs;
    SettingFits(t, short, key, f, rs);
    AfterRow(t, short, key, f, rs, run, i);
    EntitiesStayOk(t, short, key, f, rs, run);
    RowAt(t'.entities, short, r.local);
    assert RowOk(id, t'.entities[id]);
    if id in t.entities {
      RowAt(t.entities, short, r.local);
      assert RowOk(id, t.entities[id]);
    }
    if !ModuleScoped(r.kind) {
      InnerIsNotFunction(short, key, r.local);
    }
  }

  lemma InnerIsNotFunction(short: string, key: string, local: string)
    requires IsShort(short) && ':' !in key && ':' in local && Scope(local).Some?
    ensures EntityId(short, local) != FunctionHandle(short, key)
  {
    hide Scope, EntityId;
    FunctionScope(key);
    EntityIdInjective(short, local, short, "function:" + key);
  }

  lemma EntitiesAgain(t: Tables, short: string, key: string, f: Handle, rs: seq<Record<string>>, run: string,
                      again: string)
    requires Setting(t, short, key, f, rs)
    ensures After(After(t, short, f, rs, run), short, f, rs, again).entities == After(t, short, f, rs, again).entities
  {
    hide After, Setting, EntityId, EntitiesOf, KeptEntities, Upsert, Settled;
    var t1 := After(t, short, f, rs, run);
    var a, b := After(t1, short, f, rs, again).entities, After(t, short, f, rs, again).entities;
    StillGood(t, short, key, f, rs, run);
    forall id ensures (id in a <==> id in b) && (id in a ==> a[id] == b[id]) {
      AfterOutside(t1, short, key, f, rs, again, id);
      AfterOutside(t, short, key, f, rs, again, id);
      if id in Ids(short, EntitiesOf(rs)) {
        IdsExact(short, EntitiesOf(rs), id);
        var i :| 0 <= i < |EntitiesOf(rs)| && EntityId(short, EntitiesOf(rs)[i].local) == id;
        SettingFits(t1, short, key, f, rs);
        AfterRow(t1, short, key, f, rs, again, i);
        SettingFits(t, short, key, f, rs);
        AfterRow(t, short, key, f, rs, again, i);
        UpsertAgain(t, short, key, f, rs, run, i);
      } else {
        KeptAgain(t, short, key, f, rs, run, id);
        KeptRowSame(t, f, id);
        KeptRowSame(t1, f, id);
      }
    }
  }

  lemma KeptRowSame(t: Tables, f: Handle, id: Handle)
    ensures id in KeptEntities(t.entities, f) ==> id in t.entities && KeptEntities(t.entities, f)[id] == t.entities[id]
  {
  }

  lemma {:induction false} KeptTwice(es: map<Handle, EntityRow>, f: Handle, rows: seq<R.Relation>)
    requires forall r :: r in rows ==> !Stale(es, f, r)
    ensures KeptRelations(es, f, rows) == rows
  {
    if rows != [] {
      assert rows[|rows| - 1] in rows;
      KeptTwice(es, f, rows[..|rows| - 1]);
      assert rows == rows[..|rows| - 1] + [rows[|rows| - 1]];
    }
  }

  lemma {:induction false} KeptNothing(es: map<Handle, EntityRow>, f: Handle, a: seq<R.Relation>, b: seq<R.Relation>)
    requires forall r :: r in b ==> Stale(es, f, r)
    ensures KeptRelations(es, f, a + b) == KeptRelations(es, f, a)
  {
    if b == [] {
      assert a + b == a;
    } else {
      assert b[|b| - 1] in b;
      KeptNothing(es, f, a, b[..|b| - 1]);
      assert (a + b)[..|a + b| - 1] == a + b[..|b| - 1];
    }
  }

  lemma RelationsAgain(t: Tables, short: string, key: string, f: Handle, rs: seq<Record<string>>, run: string)
    requires Setting(t, short, key, f, rs)
    ensures var t1 := After(t, short, f, rs, run);
            KeptRelations(t1.entities, f, t1.relations) == KeptRelations(t.entities, f, t.relations)
  {
    hide After, EntityId, EntitiesOk, GoodRecords, Target, KeptRelations, Stale, RelationOk;
    var t1 := After(t, short, f, rs, run);
    var kept, added := KeptRelations(t.entities, f, t.relations), RelationRows(short, f, run, RelationsOf(rs));
    SettingFits(t, short, key, f, rs);
    AfterParts(t, short, key, f, rs, run);
    TablesStayOk(t, short, key, f, rs, run);
    KeptRelationsIn(t.entities, f, t.relations);
    forall r | r in kept ensures !Stale(t1.entities, f, r) {
      assert r in t1.relations;
      StaleIsOwn(t, f, r);
      StaleIsOwn(t1, f, r);
    }
    forall r | r in added ensures Stale(t1.entities, f, r) {
      assert r in t1.relations;
      StaleIsOwn(t1, f, r);
    }
    KeptNothing(t1.entities, f, kept, added);
    KeptTwice(t1.entities, f, kept);
  }

  lemma {:induction false} SourcesKeptTwice(es: map<Handle, EntityRow>, f: Handle, rows: seq<SourceRow>)
    requires forall s :: s in rows ==> !Owned(es, f, s.entity)
    ensures KeptSources(es, f, rows) == rows
  {
    if rows != [] {
      assert rows[|rows| - 1] in rows;
      SourcesKeptTwice(es, f, rows[..|rows| - 1]);
      assert rows == rows[..|rows| - 1] + [rows[|rows| - 1]];
    }
  }

  lemma {:induction false} SourcesKeptNothing(es: map<Handle, EntityRow>, f: Handle, a: seq<SourceRow>, b: seq<SourceRow>)
    requires forall s :: s in b ==> Owned(es, f, s.entity)
    ensures KeptSources(es, f, a + b) == KeptSources(es, f, a)
  {
    if b == [] {
      assert a + b == a;
    } else {
      assert b[|b| - 1] in b;
      SourcesKeptNothing(es, f, a, b[..|b| - 1]);
      assert (a + b)[..|a + b| - 1] == a + b[..|b| - 1];
    }
  }

  lemma SourcesAgain(t: Tables, short: string, key: string, f: Handle, rs: seq<Record<string>>, run: string)
    requires Setting(t, short, key, f, rs)
    ensures var t1 := After(t, short, f, rs, run);
            KeptSources(t1.entities, f, t1.sources) == KeptSources(t.entities, f, t.sources)
  {
    hide After, EntityId, GoodRecords, Target, KeptSources, RelationOk, RowOk, SourceRows;
    var t1 := After(t, short, f, rs, run);
    var kept, added := KeptSources(t.entities, f, t.sources), SourceRows(short, run, SourcesOf(rs));
    SettingFits(t, short, key, f, rs);
    AfterParts(t, short, key, f, rs, run);
    KeptSourcesIn(t.entities, f, t.sources);
    forall s | s in kept ensures !Owned(t1.entities, f, s.entity) {
      KeptStays(t, short, key, f, rs, run, s.entity);
    }
    forall s | s in added ensures Owned(t1.entities, f, s.entity) {
      FreshSourceOwned(t, short, key, f, rs, run, s);
    }
    SourcesKeptNothing(t1.entities, f, kept, added);
    SourcesKeptTwice(t1.entities, f, kept);
  }

  lemma CertifiedAgain(caps: map<(Handle, string), Capability>, f: Handle, run: string, again: string)
    ensures Certified(Certified(caps, f, run), f, again) == Certified(caps, f, again)
  {
    hide Certified;
    var a, b := Certified(Certified(caps, f, run), f, again), Certified(caps, f, again);
    forall k: (Handle, string) ensures (k in a <==> k in b) && (k in a ==> a[k] == b[k]) {
      CertifiedAt(Certified(caps, f, run), f, again, k.0, k.1);
      CertifiedAt(caps, f, again, k.0, k.1);
      CertifiedAt(caps, f, run, k.0, k.1);
      assert k == (k.0, k.1);
    }
  }

  /** A second replacement with the same records gives the tables that it would have given at once. */
  lemma Twice(t: Tables, short: string, key: string, f: Handle, rs: seq<Record<string>>, run: string, again: string)
    requires Setting(t, short, key, f, rs)
    ensures After(After(t, short, f, rs, run), short, f, rs, again) == After(t, short, f, rs, again)
  {
    hide After, Setting, EntityId, Certified, KeptRelations, KeptSources, RelationRows, SourceRows;
    var t1 := After(t, short, f, rs, run);
    StillGood(t, short, key, f, rs, run);
    SettingFits(t, short, key, f, rs);
    AfterParts(t, short, key, f, rs, run);
    AfterParts(t, short, key, f, rs, again);
    SettingFits(t1, short, key, f, rs);
    AfterParts(t1, short, key, f, rs, again);
    EntitiesAgain(t, short, key, f, rs, run, again);
    RelationsAgain(t, short, key, f, rs, run);
    SourcesAgain(t, short, key, f, rs, run);
    CertifiedAgain(t.capabilities, f, run, again);
  }
}
