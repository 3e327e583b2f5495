/** What the snapshot of a function consists of: its relation rows, source rows, entities and capabilities. */
module SnapshotContent {
  import opened Wrappers
  import opened Keys
  import opened Records
  import opened Snapshot
  import opened SnapshotProperties
  import opened SnapshotTheorems
  import R = Relations

  // ---- This function's entities ------------------------------------------------------------------------------

  /** Record number `i` of a list declares an entity inside the function. */
  predicate IsInner(ents: seq<Record<string>>, i: int)
    requires forall r :: r in ents ==> r.Entity?
  {
    0 <= i < |ents| && !ModuleScoped(ents[i].kind)
  }

  /** `id` is the handle of an inner entity of the list. */
  ghost predicate InnerId(short: string, rs: seq<Record<string>>, id: Handle) {
    exists i :: IsInner(EntitiesOf(rs), i) && EntityId(short, EntitiesOf(rs)[i].local) == id
  }

  /** The row of an inner entity: everything in it comes from the record. */
  function InnerRow(short: string, f: Handle, rels: seq<Record<string>>, r: Record<string>): EntityRow
    requires r.Entity? && forall x :: x in rels ==> x.Relation?
  {
    EntityRow(short, Some(f), BlockIdFor(short, rels, r), r.kind, r.local, r.ordinal, r.name, r.opcode, r.text,
              "structure_ready")
  }

  /** The old row of an inner entity was deleted, so it is inserted anew. */
  lemma InnerRowExact(t: Tables, short: string, key: string, f: Handle, rs: seq<Record<string>>, run: string, i: int)
    requires Setting(t, short, key, f, rs) && IsInner(EntitiesOf(rs), i)
    ensures var t', r := After(t, short, f, rs, run), EntitiesOf(rs)[i];
            var id := EntityId(short, r.local);
            id in t'.entities && t'.entities[id] == InnerRow(short, f, RelationsOf(rs), r)
  {
    hide After, EntityId, RelationOk, Unambiguous, Scope, BlockIdFor, EntitiesOf, RelationsOf, FunctionHandle;
    var r := EntitiesOf(rs)[i];
    assert r in EntitiesOf(rs) && r in rs;
    SettingFits(t, short, key, f, rs);
    AfterRow(t, short, key, f, rs, run, i);
    var id := EntityId(short, r.local);
    if id in t.entities {
      OkIsKeyed(t.entities);
      RowAt(t.entities, short, r.local);
      assert RowOk(id, t.entities[id]);
    }
    InnerIsNotFunction(short, key, r.local);
  }

  /** After the commit the function owns exactly the inner entities of the list. */
  lemma OwnedExact(t: Tables, short: string, key: string, f: Handle, rs: seq<Record<string>>, run: string, id: Handle)
    requires Setting(t, short, key, f, rs)
    ensures Owned(After(t, short, f, rs, run).entities, f, id) <==> InnerId(short, rs, id)
  {
    hide After, EntityId, EntitiesOf, Setting, InnerRow, Owned;
    var ents := EntitiesOf(rs);
    if i :| IsInner(ents, i) && EntityId(short, ents[i].local) == id {
      InnerRowExact(t, short, key, f, rs, run, i);
      InnerRowOwner(short, f, RelationsOf(rs), ents[i]);
      OwnedRow(After(t, short, f, rs, run).entities, f, id);
    }
    if Owned(After(t, short, f, rs, run).entities, f, id) {
      OwnedIsInner(t, short, key, f, rs, run, id);
    }
  }

  lemma OwnedRow(es: map<Handle, EntityRow>, f: Handle, id: Handle)
    requires id in es && es[id].functionId == Some(f)
    ensures Owned(es, f, id)
  {
  }

  lemma OwnedIsInner(t: Tables, short: string, key: string, f: Handle, rs: seq<Record<string>>, run: string, id: Handle)
    requires Setting(t, short, key, f, rs) && Owned(After(t, short, f, rs, run).entities, f, id)
    ensures InnerId(short, rs, id)
  {
    hide After, EntityId, EntitiesOf, Setting, BlockIdFor;
    var ents := EntitiesOf(rs);
    AfterOutside(t, short, key, f, rs, run, id);
    FunctionUnowned(t, short, key, f, rs);
    IdsExact(short, ents, id);
    var i :| 0 <= i < |ents| && EntityId(short, ents[i].local) == id;
    SettingFits(t, short, key, f, rs);
    AfterRow(t, short, key, f, rs, run, i);
    assert IsInner(ents, i);
  }

  lemma InnerRowOwner(short: string, f: Handle, rels: seq<Record<string>>, r: Record<string>)
    requires r.Entity? && forall x :: x in rels ==> x.Relation?
    ensures InnerRow(short, f, rels, r).functionId == Some(f)
  {
  }

  lemma FunctionUnowned(t: Tables, short: string, key: string, f: Handle, rs: seq<Record<string>>)
    requires Setting(t, short, key, f, rs)
    ensures f in t.entities && t.entities[f].functionId == None
  {
    hide EntityId, RelationOk, GoodRecords, Scope, RowOk, IsShort, Fitting;
    OkIsKeyed(t.entities);
    FunctionScope(key);
    RowAt(t.entities, short, "function:" + key);
    assert KeyOk(f, t.entities[f]);
  }

  // ---- This function's source rows ---------------------------------------------------------------------------

  lemma {:induction false} KeptSourcesNone(a: map<Handle, EntityRow>, b: map<Handle, EntityRow>, f: Handle,
                                           rows: seq<SourceRow>)
    requires forall s :: s in rows && !Owned(a, f, s.entity) ==> !Owned(b, f, s.entity)
    ensures SourcesIn(b, f, KeptSources(a, f, rows)) == []
  {
    if rows != [] {
      var init, last := rows[..|rows| - 1], rows[|rows| - 1];
      assert last in rows;
      KeptSourcesNone(a, b, f, init);
      var kept := KeptSources(a, f, init);
      assert (kept + [last])[..|kept|] == kept;
    }
  }

  lemma {:induction false} SourcesInAll(es: map<Handle, EntityRow>, f: Handle, rows: seq<SourceRow>)
    requires forall s :: s in rows ==> Owned(es, f, s.entity)
    ensures SourcesIn(es, f, rows) == rows
  {
    if rows != [] {
      assert rows == rows[..|rows| - 1] + [rows[|rows| - 1]];
      SourcesInAll(es, f, rows[..|rows| - 1]);
    }
  }

  /** The function's source rows are exactly the new ones, in record order, all carrying the committing run. */
  lemma SourcesReplaced(t: Tables, short: string, key: string, f: Handle, rs: seq<Record<string>>, run: string)
    requires Setting(t, short, key, f, rs)
    ensures var t' := After(t, short, f, rs, run);
            SourcesIn(t'.entities, f, t'.sources) == SourceRows(short, run, SourcesOf(rs))
  {
    hide After, EntityId, EntitiesOk, RelationOk, GoodRecords, Target, KeptSources, SourcesIn, SourceRows, Owned;
    var t', added := After(t, short, f, rs, run), SourceRows(short, run, SourcesOf(rs));
    SettingFits(t, short, key, f, rs);
    AfterParts(t, short, key, f, rs, run);
    forall s | s in t.sources && !Owned(t.entities, f, s.entity) ensures !Owned(t'.entities, f, s.entity) {
      KeptUnowned(t, short, key, f, rs, run, s.entity);
    }
    KeptSourcesNone(t.entities, t'.entities, f, t.sources);
    forall s | s in added ensures Owned(t'.entities, f, s.entity) {
      FreshSourceOwned(t, short, key, f, rs, run, s);
    }
    SourcesInAll(t'.entities, f, added);
    SourcesInAppend(t'.entities, f, KeptSources(t.entities, f, t.sources), added);
    assert [] + added == added;
  }

  lemma KeptUnowned(t: Tables, short: string, key: string, f: Handle, rs: seq<Record<string>>, run: string, id: Handle)
    requires Setting(t, short, key, f, rs) && id in t.entities && !Owned(t.entities, f, id)
    ensures !Owned(After(t, short, f, rs, run).entities, f, id)
  {
    hide After, Setting;
    KeptStays(t, short, key, f, rs, run, id);
  }

  lemma {:induction false} RowsOfAt(f: Handle, rows: seq<R.Relation>, r: R.Relation)
    ensures r in RowsOf(f, rows) <==> r in rows && r.functionId == Some(f)
  {
    if rows != [] {
      var init, last := rows[..|rows| - 1], rows[|rows| - 1];
      RowsOfAt(f, init, r);
      assert rows == init + [last];
    }
  }

  // ---- The whole snapshot ------------------------------------------------------------------------------------

  /** No snapshot at all. */
  ghost predicate Blank(t: Tables, f: Handle) {
    && RowsOf(f, t.relations) == [] && SourcesIn(t.entities, f, t.sources) == []
    && (forall id :: !Owned(t.entities, f, id))
    && (forall c :: (f, c) !in t.capabilities)
  }

  /** The function owns exactly the inner entities of the list, each as its record says. */
  ghost predicate OwnsExactly(es: map<Handle, EntityRow>, short: string, f: Handle, rs: seq<Record<string>>) {
    && (forall id :: Owned(es, f, id) <==> InnerId(short, rs, id))
    && (forall i :: IsInner(EntitiesOf(rs), i) ==>
          var id := EntityId(short, EntitiesOf(rs)[i].local);
          id in es && es[id] == InnerRow(short, f, RelationsOf(rs), EntitiesOf(rs)[i]))
  }

  ghost predicate CertifiedBy(caps: map<(Handle, string), Capability>, f: Handle, run: string) {
    && (forall c :: (f, c) in caps <==> c in CONTRACT)
    && (forall c :: c in CONTRACT ==> caps[(f, c)] == Capability(CONTRACT[c], run))
  }

  /** The whole record list, stored by one run, with the manifest of the contract by the same run. */
  ghost predicate Complete(t: Tables, short: string, f: Handle, rs: seq<Record<string>>, run: string) {
    && RowsOf(f, t.relations) == RelationRows(short, f, run, RelationsOf(rs))
    && SourcesIn(t.entities, f, t.sources) == SourceRows(short, run, SourcesOf(rs))
    && OwnsExactly(t.entities, short, f, rs)
    && CertifiedBy(t.capabilities, f, run)
  }

  lemma CommitOwns(t: Tables, short: string, key: string, f: Handle, rs: seq<Record<string>>, run: string)
    requires Setting(t, short, key, f, rs)
    ensures OwnsExactly(After(t, short, f, rs, run).entities, short, f, rs)
  {
    hide After, Setting, RelationsOf, EntitiesOf, Owned, InnerId, InnerRow, EntityId;
    var t' := After(t, short, f, rs, run);
    forall id ensures Owned(t'.entities, f, id) <==> InnerId(short, rs, id) {
      OwnedExact(t, short, key, f, rs, run, id);
    }
    forall i | IsInner(EntitiesOf(rs), i)
      ensures var id := EntityId(short, EntitiesOf(rs)[i].local);
              id in t'.entities && t'.entities[id] == InnerRow(short, f, RelationsOf(rs), EntitiesOf(rs)[i])
    {
      InnerRowExact(t, short, key, f, rs, run, i);
    }
  }

  lemma CommitCertifies(t: Tables, short: string, key: string, f: Handle, rs: seq<Record<string>>, run: string)
    requires Fitting(t, short, key, rs)
    ensures CertifiedBy(After(t, short, f, rs, run).capabilities, f, run)
  {
    hide After, Fitting, Certified, CONTRACT;
    AfterParts(t, short, key, f, rs, run);
    forall c
      ensures var after := After(t, short, f, rs, run).capabilities;
              ((f, c) in after <==> c in CONTRACT) && (c in CONTRACT ==> after[(f, c)] == Capability(CONTRACT[c], run))
    {
      CertifiedAt(t.capabilities, f, run, f, c);
    }
  }

  /** The committed function's snapshot is complete under the committing run. */
  lemma CommitCompletes(t: Tables, short: string, key: string, f: Handle, rs: seq<Record<string>>, run: string)
    requires Setting(t, short, key, f, rs)
    ensures Complete(After(t, short, f, rs, run), short, f, rs, run)
  {
    hide After, Setting, Fitting, RowsOf, RelationRows, RelationsOf, SourcesIn, SourceRows, SourcesOf, OwnsExactly,
         CertifiedBy;
    SettingFits(t, short, key, f, rs);
    RelationsReplaced(t, short, key, f, rs, run);
    SourcesReplaced(t, short, key, f, rs, run);
    CommitOwns(t, short, key, f, rs, run);
    CommitCertifies(t, short, key, f, rs, run);
  }

  /** The snapshot of `g` is the same in both tables. */
  ghost predicate SameSnapshot(t: Tables, t': Tables, g: Handle) {
    && RowsOf(g, t'.relations) == RowsOf(g, t.relations)
    && SourcesIn(t'.entities, g, t'.sources) == SourcesIn(t.entities, g, t.sources)
    && (forall id :: Owned(t.entities, g, id) <==> Owned(t'.entities, g, id))
    && (forall id :: Owned(t.entities, g, id) ==> t'.entities[id] == t.entities[id])
    && (forall c :: (g, c) in t'.capabilities <==> (g, c) in t.capabilities)
    && (forall c :: (g, c) in t'.capabilities ==> t'.capabilities[(g, c)] == t.capabilities[(g, c)])
  }

  /** Any other function's snapshot is what it was. */
  lemma CommitSpares(t: Tables, short: string, key: string, f: Handle, rs: seq<Record<string>>, run: string, g: Handle)
    requires Setting(t, short, key, f, rs) && g != f
    ensures SameSnapshot(t, After(t, short, f, rs, run), g)
  {
    hide After, Setting, RowsOf, SourcesIn, Owned, CONTRACT;
    var t' := After(t, short, f, rs, run);
    OtherRelationsSurvive(t, short, key, f, rs, run, g);
    OtherSourcesSurvive(t, short, key, f, rs, run, g);
    forall id ensures (Owned(t.entities, g, id) <==> Owned(t'.entities, g, id)) &&
                      (Owned(t.entities, g, id) ==>
                         id in t.entities && id in t'.entities && t'.entities[id] == t.entities[id])
    {
      OtherEntitiesSurvive(t, short, key, f, rs, run, g, id);
      OwnedIn(t.entities, g, id);
      OwnedIn(t'.entities, g, id);
    }
    forall c ensures ((g, c) in t'.capabilities <==> (g, c) in t.capabilities) &&
                     ((g, c) in t'.capabilities ==> t'.capabilities[(g, c)] == t.capabilities[(g, c)])
    {
      ManifestExact(t, short, key, f, rs, run, g, c);
    }
  }

  lemma OwnedIn(es: map<Handle, EntityRow>, g: Handle, id: Handle)
    ensures Owned(es, g, id) ==> id in es
  {
  }

  /** So whatever is known of a snapshot carries over. */
  lemma SameSnapshotCarries(t: Tables, t': Tables, g: Handle)
    requires SameSnapshot(t, t', g)
    ensures Blank(t, g) ==> Blank(t', g)
    ensures forall short, rs, run :: Complete(t, short, g, rs, run) ==> Complete(t', short, g, rs, run)
  {
    hide RowsOf, SourcesIn, InnerRow, RelationRows, SourceRows, RelationsOf, SourcesOf, CONTRACT, Owned;
    forall short, rs, run | Complete(t, short, g, rs, run) ensures Complete(t', short, g, rs, run) {
      SameOwnings(t, t', short, g, rs);
    }
  }

  lemma SameOwnings(t: Tables, t': Tables, short: string, g: Handle, rs: seq<Record<string>>)
    requires SameSnapshot(t, t', g) && OwnsExactly(t.entities, short, g, rs)
    ensures OwnsExactly(t'.entities, short, g, rs)
  {
    hide RowsOf, SourcesIn, InnerRow, RelationsOf, EntityId, EntitiesOf, Owned;
    forall i | IsInner(EntitiesOf(rs), i)
      ensures var id := EntityId(short, EntitiesOf(rs)[i].local);
              id in t'.entities && t'.entities[id] == InnerRow(short, g, RelationsOf(rs), EntitiesOf(rs)[i])
    {
      var id := EntityId(short, EntitiesOf(rs)[i].local);
      assert InnerId(short, rs, id);
      OwnedIn(t.entities, g, id);
      OwnedIn(t'.entities, g, id);
    }
  }
}
