/** Artifacts do not meet in the tables: a commit acts on the rows of its own artifact as if the others were not there. */
module Partition {
  import opened Wrappers
  import opened Keys
  import opened Records
  import opened Snapshot
  import opened SnapshotProperties
  import opened SnapshotTheorems
  import opened SnapshotContent
  import R = Relations

  /** The part of a handle that tells its artifact. */
  function Home(h: Handle): string {
    if |h| >= 5 + SHORT_LENGTH then h[5..5 + SHORT_LENGTH] else ""
  }

  lemma HomeOfId(short: string, local: string)
    requires IsShort(short)
    ensures Home(EntityId(short, local)) == short
  {
    EntityIdCanonical(short, local);
  }

  // ---- The rows of one artifact ------------------------------------------------------------------------------

  function PartEntities(es: map<Handle, EntityRow>, a: string): map<Handle, EntityRow> {
    map id | id in es && Home(id) == a :: es[id]
  }

  predicate RelationOf(r: R.Relation, a: string) {
    r.functionId.Some? && Home(r.functionId.value) == a
  }

  function PartRelations(rows: seq<R.Relation>, a: string): seq<R.Relation> {
    if rows == [] then []
    else
      var init, last := PartRelations(rows[..|rows| - 1], a), rows[|rows| - 1];
      if RelationOf(last, a) then init + [last] else init
  }

  function PartSources(rows: seq<SourceRow>, a: string): seq<SourceRow> {
    if rows == [] then []
    else
      var init, last := PartSources(rows[..|rows| - 1], a), rows[|rows| - 1];
      if Home(last.entity) == a then init + [last] else init
  }

  function PartCapabilities(caps: map<(Handle, string), Capability>, a: string): map<(Handle, string), Capability> {
    map k | k in caps && Home(k.0) == a :: caps[k]
  }

  /** The rows of one artifact, in table order. */
  function Part(t: Tables, a: string): Tables {
    Tables(PartEntities(t.entities, a), PartRelations(t.relations, a), PartSources(t.sources, a),
           PartCapabilities(t.capabilities, a))
  }

  // ---- No row joins two artifacts ----------------------------------------------------------------------------

  ghost predicate SeparateEntities(es: map<Handle, EntityRow>) {
    forall id :: id in es && es[id].functionId.Some? ==> Home(es[id].functionId.value) == Home(id)
  }

  predicate SeparateRelation(r: R.Relation) {
    r.functionId.Some? && Home(r.src) == Home(r.functionId.value) && Home(r.dst) == Home(r.functionId.value)
  }

  ghost predicate SeparateRelations(rows: seq<R.Relation>) {
    forall r :: r in rows ==> SeparateRelation(r)
  }

  ghost predicate Separate(t: Tables) {
    SeparateEntities(t.entities) && SeparateRelations(t.relations)
  }

  // ---- Deleting ----------------------------------------------------------------------------------------------

  lemma KeptEntitiesPart(es: map<Handle, EntityRow>, f: Handle, a: string)
    requires SeparateEntities(es)
    ensures SeparateEntities(KeptEntities(es, f))
    ensures PartEntities(KeptEntities(es, f), a) ==
            if a == Home(f) then KeptEntities(PartEntities(es, a), f) else PartEntities(es, a)
  {
    hide Home;
  }

  lemma StalePart(es: map<Handle, EntityRow>, f: Handle, r: R.Relation)
    requires SeparateEntities(es) && SeparateRelation(r)
    ensures RelationOf(r, Home(f)) ==> (Stale(es, f, r) <==> Stale(PartEntities(es, Home(f)), f, r))
    ensures !RelationOf(r, Home(f)) ==> !Stale(es, f, r)
  {
    hide Home;
  }

  lemma {:induction false} KeptRelationsPart(es: map<Handle, EntityRow>, f: Handle, rows: seq<R.Relation>, a: string)
    requires SeparateEntities(es) && SeparateRelations(rows)
    ensures PartRelations(KeptRelations(es, f, rows), a) ==
            if a == Home(f) then KeptRelations(PartEntities(es, a), f, PartRelations(rows, a)) else PartRelations(rows, a)
  {
    hide SeparateEntities, SeparateRelation, Stale, RelationOf, PartEntities, Home;
    if rows != [] {
      var init, last := rows[..|rows| - 1], rows[|rows| - 1];
      assert last in rows && forall r :: r in init ==> r in rows;
      KeptRelationsPart(es, f, init, a);
      StalePart(es, f, last);
      var kept, part := KeptRelations(es, f, init), PartRelations(init, a);
      assert (kept + [last])[..|kept|] == kept && (part + [last])[..|part|] == part;
      OneHome(last, a, Home(f));
    }
  }

  lemma OneHome(r: R.Relation, a: string, b: string)
    ensures RelationOf(r, a) && RelationOf(r, b) ==> a == b
  {
    hide Home;
  }

  lemma {:induction false} KeptSourcesPart(es: map<Handle, EntityRow>, f: Handle, rows: seq<SourceRow>, a: string)
    requires SeparateEntities(es)
    ensures PartSources(KeptSources(es, f, rows), a) ==
            if a == Home(f) then KeptSources(PartEntities(es, a), f, PartSources(rows, a)) else PartSources(rows, a)
  {
    hide Home, Owned, SeparateEntities, PartEntities;
    if rows != [] {
      var init, last := rows[..|rows| - 1], rows[|rows| - 1];
      KeptSourcesPart(es, f, init, a);
      OwnedPart(es, f, last.entity);
      var kept, part := KeptSources(es, f, init), PartSources(init, a);
      assert (kept + [last])[..|kept|] == kept && (part + [last])[..|part|] == part;
    }
  }

  // ---- Inserting ---------------------------------------------------------------------------------------------

  /** Setting a row in one artifact. */
  lemma PartUpdate(es: map<Handle, EntityRow>, id: Handle, row: EntityRow, a: string)
    ensures PartEntities(es[id := row], a) ==
            if a == Home(id) then PartEntities(es, a)[id := row] else PartEntities(es, a)
  {
    hide Home;
  }

  lemma UpsertPart(es: map<Handle, EntityRow>, short: string, r: Record<string>)
    requires IsShort(short) && r.Entity?
    ensures Upsert(PartEntities(es, short), short, r) == Upsert(es, short, r)
    ensures Collides(PartEntities(es, short), short, r) <==> Collides(es, short, r)
  {
    hide Home, EntityId;
    HomeOfId(short, r.local);
  }

  lemma UpsertSeparate(es: map<Handle, EntityRow>, short: string, r: Record<string>)
    requires SeparateEntities(es) && r.Entity?
    ensures SeparateEntities(es[EntityId(short, r.local) := Upsert(es, short, r)])
  {
    hide Home, EntityId;
  }

  lemma {:induction false} InsertedPart(es: map<Handle, EntityRow>, short: string, ents: seq<Record<string>>, a: string)
    requires SeparateEntities(es) && IsShort(short) && forall r :: r in ents ==> r.Entity?
    ensures var whole, part := Inserted(es, short, ents), Inserted(PartEntities(es, short), short, ents);
            && (whole.Err? ==> part == whole)
            && (whole.Ok? ==> part == Ok(PartEntities(whole.value, short)) && SeparateEntities(whole.value))
            && (whole.Ok? && a != short ==> PartEntities(whole.value, a) == PartEntities(es, a))
  {
    hide Home, EntityId, Upsert, Collides, PartEntities, SeparateEntities, IsShort;
    if ents != [] {
      var init, last := ents[..|ents| - 1], ents[|ents| - 1];
      InsertedPart(es, short, init, a);
      HomeOfId(short, last.local);
      if Inserted(es, short, init).Ok? {
        var before := Inserted(es, short, init).value;
        UpsertPart(before, short, last);
        UpsertSeparate(before, short, last);
        PartUpdate(before, EntityId(short, last.local), Upsert(before, short, last), short);
        PartUpdate(before, EntityId(short, last.local), Upsert(before, short, last), a);
      }
    }
  }

  lemma PartHas(es: map<Handle, EntityRow>, short: string, local: string)
    requires IsShort(short)
    ensures EntityId(short, local) in PartEntities(es, short) <==> EntityId(short, local) in es
    ensures EntityId(short, local) in es ==>
              PartEntities(es, short)[EntityId(short, local)] == es[EntityId(short, local)]
  {
    hide Home, EntityId;
    HomeOfId(short, local);
  }

  lemma {:induction false} PlacedPart(es: map<Handle, EntityRow>, short: string, f: Handle, rels: seq<Record<string>>,
                                      ents: seq<Record<string>>, a: string)
    requires SeparateEntities(es) && IsShort(short) && Home(f) == short
    requires forall r :: r in ents ==> r.Entity? && EntityId(short, r.local) in es
    requires forall r :: r in ents ==> EntityId(short, r.local) in PartEntities(es, short)
    requires forall x :: x in rels ==> x.Relation?
    ensures var whole := Placed(es, short, f, rels, ents);
            && Placed(PartEntities(es, short), short, f, rels, ents) == PartEntities(whole, short)
            && SeparateEntities(whole) && (a != short ==> PartEntities(whole, a) == PartEntities(es, a))
  {
    hide Home, EntityId, PartEntities, SeparateEntities, IsShort, ModuleScoped, BlockIdFor;
    if ents != [] {
      var init, last := ents[..|ents| - 1], ents[|ents| - 1];
      PlacedPart(es, short, f, rels, init, a);
      HomeOfId(short, last.local);
      var before, id := Placed(es, short, f, rels, init), EntityId(short, last.local);
      if !ModuleScoped(last.kind) {
        PartHas(before, short, last.local);
        var row := before[id].(functionId := Some(f), blockId := BlockIdFor(short, rels, last));
        PartUpdate(before, id, row, short);
        PartUpdate(before, id, row, a);
        PlaceSeparate(before, id, row);
      }
    }
  }

  lemma PlaceSeparate(es: map<Handle, EntityRow>, id: Handle, row: EntityRow)
    requires SeparateEntities(es) && (row.functionId.Some? ==> Home(row.functionId.value) == Home(id))
    ensures SeparateEntities(es[id := row])
  {
    hide Home;
  }

  lemma MarkReadyPart(es: map<Handle, EntityRow>, f: Handle, a: string)
    requires SeparateEntities(es)
    ensures PartEntities(MarkReady(es, f), a) ==
            if a == Home(f) then MarkReady(PartEntities(es, a), f) else PartEntities(es, a)
    ensures SeparateEntities(MarkReady(es, f))
  {
    hide Home;
  }

  // ---- Relations, sources and capabilities -------------------------------------------------------------------

  lemma {:induction false} PartRelationsAppend(x: seq<R.Relation>, y: seq<R.Relation>, a: string)
    ensures PartRelations(x + y, a) == PartRelations(x, a) + PartRelations(y, a)
  {
    hide RelationOf;
    if y == [] {
      assert x + y == x;
    } else {
      PartRelationsAppend(x, y[..|y| - 1], a);
      assert (x + y)[..|x + y| - 1] == x + y[..|y| - 1];
    }
  }

  lemma {:induction false} PartRelationsAll(rows: seq<R.Relation>, a: string, b: bool)
    requires forall r :: r in rows ==> (RelationOf(r, a) <==> b)
    ensures PartRelations(rows, a) == if b then rows else []
  {
    hide RelationOf;
    if rows != [] {
      assert rows == rows[..|rows| - 1] + [rows[|rows| - 1]];
      PartRelationsAll(rows[..|rows| - 1], a, b);
    }
  }

  lemma {:induction false} PartSourcesAppend(x: seq<SourceRow>, y: seq<SourceRow>, a: string)
    ensures PartSources(x + y, a) == PartSources(x, a) + PartSources(y, a)
  {
    hide Home;
    if y == [] {
      assert x + y == x;
    } else {
      PartSourcesAppend(x, y[..|y| - 1], a);
      assert (x + y)[..|x + y| - 1] == x + y[..|y| - 1];
    }
  }

  lemma {:induction false} PartSourcesAll(rows: seq<SourceRow>, a: string, b: bool)
    requires forall r :: r in rows ==> (Home(r.entity) == a <==> b)
    ensures PartSources(rows, a) == if b then rows else []
  {
    hide Home;
    if rows != [] {
      assert rows == rows[..|rows| - 1] + [rows[|rows| - 1]];
      PartSourcesAll(rows[..|rows| - 1], a, b);
    }
  }

  lemma NewRowsPart(short: string, f: Handle, run: string, rels: seq<Record<string>>, srcs: seq<Record<string>>, a: string)
    requires IsShort(short) && Home(f) == short
    requires (forall r :: r in rels ==> r.Relation?) && (forall r :: r in srcs ==> r.Source?)
    ensures PartRelations(RelationRows(short, f, run, rels), a) ==
            if a == short then RelationRows(short, f, run, rels) else []
    ensures PartSources(SourceRows(short, run, srcs), a) == if a == short then SourceRows(short, run, srcs) else []
    ensures SeparateRelations(RelationRows(short, f, run, rels))
  {
    hide Home, EntityId, IsShort;
    var rows, sources := RelationRows(short, f, run, rels), SourceRows(short, run, srcs);
    forall r | r in rows ensures (RelationOf(r, a) <==> a == short) && SeparateRelation(r) {
      var i :| 0 <= i < |rows| && rows[i] == r;
      HomeOfId(short, rels[i].src);
      HomeOfId(short, rels[i].dst);
    }
    forall s | s in sources ensures Home(s.entity) == a <==> a == short {
      var i :| 0 <= i < |sources| && sources[i] == s;
      HomeOfId(short, srcs[i].entity);
    }
    PartRelationsAll(rows, a, a == short);
    PartSourcesAll(sources, a, a == short);
  }

  lemma CertifiedPart(caps: map<(Handle, string), Capability>, f: Handle, run: string, a: string)
    ensures PartCapabilities(Certified(caps, f, run), a) ==
            if a == Home(f) then Certified(PartCapabilities(caps, a), f, run) else PartCapabilities(caps, a)
  {
    hide Home, CONTRACT;
  }

  // ---- The transaction ---------------------------------------------------------------------------------------

  lemma ResolvesPart(es: map<Handle, EntityRow>, short: string, rels: seq<Record<string>>)
    requires IsShort(short) && forall r :: r in rels ==> r.Relation?
    ensures EndpointsResolve(PartEntities(es, short), short, rels) <==> EndpointsResolve(es, short, rels)
  {
    hide PartEntities, EntityId, IsShort;
    forall i | 0 <= i < |rels|
      ensures Resolves(PartEntities(es, short), short, rels[i].src) <==> Resolves(es, short, rels[i].src)
      ensures Resolves(PartEntities(es, short), short, rels[i].dst) <==> Resolves(es, short, rels[i].dst)
    {
      PartHas(es, short, rels[i].src);
      PartHas(es, short, rels[i].dst);
    }
  }

  lemma AssembledPart(t: Tables, es: map<Handle, EntityRow>, short: string, f: Handle, rs: seq<Record<string>>, run: string,
                      a: string)
    requires Separate(t) && SeparateEntities(es) && IsShort(short) && Home(f) == short
    requires forall r :: r in EntitiesOf(rs) ==>
               EntityId(short, r.local) in es && EntityId(short, r.local) in PartEntities(es, short)
    ensures var t' := Assembled(t, es, short, f, rs, run);
            && Separate(t')
            && Part(t', short) == Assembled(Part(t, short), PartEntities(es, short), short, f, rs, run)
            && (a != short ==>
                Part(t', a) == Part(t, a).(entities := PartEntities(es, a)))
  {
    hide Home, EntityId, PartEntities, SeparateEntities, SeparateRelation, RelationOf, PartRelations, PartSources,
         KeptRelations, KeptSources, Placed, MarkReady, Certified, RelationRows, SourceRows, PartCapabilities,
         EntitiesOf, RelationsOf, SourcesOf, IsShort;
    AssembledParts(t, es, short, f, rs, run, short);
    AssembledParts(t, es, short, f, rs, run, a);
    var t' := Assembled(t, es, short, f, rs, run);
    NewRowsPart(short, f, run, RelationsOf(rs), SourcesOf(rs), short);
    KeptRelationsIn(t.entities, f, t.relations);
    forall r | r in t'.relations ensures SeparateRelation(r) {
      assert r in KeptRelations(t.entities, f, t.relations) || r in RelationRows(short, f, run, RelationsOf(rs));
    }
  }

  lemma AssembledParts(t: Tables, es: map<Handle, EntityRow>, short: string, f: Handle, rs: seq<Record<string>>, run: string,
                       a: string)
    requires Separate(t) && SeparateEntities(es) && IsShort(short) && Home(f) == short
    requires forall r :: r in EntitiesOf(rs) ==>
               EntityId(short, r.local) in es && EntityId(short, r.local) in PartEntities(es, short)
    ensures var t' := Assembled(t, es, short, f, rs, run);
            && SeparateEntities(t'.entities)
            && Part(t', a) == if a == short then Assembled(Part(t, short), PartEntities(es, short), short, f, rs, run)
                              else Part(t, a).(entities := PartEntities(es, a))
  {
    hide Home, EntityId, PartEntities, SeparateEntities, PartRelations, PartSources, KeptRelations, KeptSources,
         Placed, MarkReady, Certified, RelationRows, SourceRows, PartCapabilities, EntitiesOf, RelationsOf, SourcesOf,
         IsShort, SeparateRelations;
    PlacedPart(es, short, f, RelationsOf(rs), EntitiesOf(rs), a);
    MarkReadyPart(Placed(es, short, f, RelationsOf(rs), EntitiesOf(rs)), f, a);
    KeptRelationsPart(t.entities, f, t.relations, a);
    KeptSourcesPart(t.entities, f, t.sources, a);
    NewRowsPart(short, f, run, RelationsOf(rs), SourcesOf(rs), a);
    PartRelationsAppend(KeptRelations(t.entities, f, t.relations), RelationRows(short, f, run, RelationsOf(rs)), a);
    PartSourcesAppend(KeptSources(t.entities, f, t.sources), SourceRows(short, run, SourcesOf(rs)), a);
    CertifiedPart(t.capabilities, f, run, a);
    assert PartRelations(t.relations, a) + [] == PartRelations(t.relations, a);
    assert PartSources(t.sources, a) + [] == PartSources(t.sources, a);
  }

  /**
   * The transaction on all tables is the transaction on the artifact's own rows, and leaves the rows of every other
   * artifact as they are.
   */
  lemma ReplacedPart(t: Tables, short: string, f: Handle, rs: seq<Record<string>>, run: string, a: string)
    requires Separate(t) && IsShort(short) && Home(f) == short
    ensures var whole, part := Replaced(t, short, f, rs, run), Replaced(Part(t, short), short, f, rs, run);
            && (whole.Err? ==> part == whole)
            && (whole.Ok? ==> part == Ok(Part(whole.value, short)) && Separate(whole.value))
            && (whole.Ok? && a != short ==> Part(whole.value, a) == Part(t, a))
  {
    hide Home, EntityId, PartEntities, SeparateEntities, SeparateRelations, KeptEntities, Assembled, Inserted,
         LocalsValid, RelationsValid, EndpointsResolve, SourcesKnown, EntitiesOf, RelationsOf, SourcesOf, IsShort;
    var ents := EntitiesOf(rs);
    KeptEntitiesPart(t.entities, f, short);
    KeptEntitiesPart(t.entities, f, a);
    var kept := KeptEntities(t.entities, f);
    InsertedPart(kept, short, ents, a);
    if Inserted(kept, short, ents).Ok? {
      var es := Inserted(kept, short, ents).value;
      ResolvesPart(es, short, RelationsOf(rs));
      InsertedKeys(kept, short, ents);
      InsertedKeys(PartEntities(kept, short), short, ents);
      AssembledPart(t, es, short, f, rs, run, a);
    }
  }

  // ---- Snapshots ---------------------------------------------------------------------------------------------

  lemma {:induction false} RowsOfPart(f: Handle, rows: seq<R.Relation>)
    ensures RowsOf(f, PartRelations(rows, Home(f))) == RowsOf(f, rows)
  {
    hide Home;
    if rows != [] {
      var init, last := rows[..|rows| - 1], rows[|rows| - 1];
      RowsOfPart(f, init);
      var part := PartRelations(init, Home(f));
      assert (part + [last])[..|part|] == part;
    }
  }

  lemma OwnedPart(es: map<Handle, EntityRow>, f: Handle, id: Handle)
    requires SeparateEntities(es)
    ensures Owned(PartEntities(es, Home(f)), f, id) <==> Owned(es, f, id)
    ensures Owned(es, f, id) ==> Home(id) == Home(f) && PartEntities(es, Home(f))[id] == es[id]
  {
    hide Home;
  }

  lemma {:induction false} SourcesInPart(es: map<Handle, EntityRow>, f: Handle, rows: seq<SourceRow>)
    requires SeparateEntities(es)
    ensures SourcesIn(PartEntities(es, Home(f)), f, PartSources(rows, Home(f))) == SourcesIn(es, f, rows)
  {
    hide Home, PartEntities, SeparateEntities, Owned;
    if rows != [] {
      var init, last := rows[..|rows| - 1], rows[|rows| - 1];
      SourcesInPart(es, f, init);
      OwnedPart(es, f, last.entity);
      var part := PartSources(init, Home(f));
      assert (part + [last])[..|part|] == part;
    }
  }

  /** A function's snapshot is found in the rows of its own artifact. */
  lemma SnapshotPart(t: Tables, f: Handle)
    requires Separate(t)
    ensures SameSnapshot(t, Part(t, Home(f)), f) && SameSnapshot(Part(t, Home(f)), t, f)
  {
    hide Home, PartEntities, SeparateEntities, SeparateRelations, RowsOf, SourcesIn, PartRelations, PartSources, Owned;
    RowsOfPart(f, t.relations);
    SourcesInPart(t.entities, f, t.sources);
    forall id
      ensures Owned(Part(t, Home(f)).entities, f, id) <==> Owned(t.entities, f, id)
      ensures Owned(t.entities, f, id) ==> id in t.entities && id in Part(t, Home(f)).entities &&
                                           Part(t, Home(f)).entities[id] == t.entities[id]
    {
      OwnedPart(t.entities, f, id);
      OwnedIn(t.entities, f, id);
      OwnedIn(Part(t, Home(f)).entities, f, id);
    }
  }

  /** So what is known of a snapshot can be told from those rows. */
  lemma SnapshotByPart(t: Tables, f: Handle)
    requires Separate(t)
    ensures Blank(Part(t, Home(f)), f) <==> Blank(t, f)
    ensures forall short, rs, run :: Complete(Part(t, Home(f)), short, f, rs, run) <==> Complete(t, short, f, rs, run)
  {
    hide *;
    SnapshotPart(t, f);
    SameSnapshotCarries(t, Part(t, Home(f)), f);
    SameSnapshotCarries(Part(t, Home(f)), t, f);
  }
}
