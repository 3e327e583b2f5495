/** When the committing transaction is rolled back, and which rows it removes, for any tables and lists. */
module SnapshotRefusals {
  import opened Wrappers
  import opened Keys
  import opened Records
  import opened Snapshot
  import R = Relations

  /** A row that the deletion leaves: the function's own, or one of another owner. */
  predicate Left(es: map<Handle, EntityRow>, f: Handle, id: Handle) {
    id in es && (id == f || es[id].functionId != Some(f))
  }

  /** Two keys of one handle: an old one that is left and one of the list, or two of the list. */
  predicate Clash(es: map<Handle, EntityRow>, short: string, f: Handle, ents: seq<Record<string>>)
    requires forall r :: r in ents ==> r.Entity?
  {
    || (exists i :: 0 <= i < |ents| && Left(es, f, EntityId(short, ents[i].local)) &&
                    es[EntityId(short, ents[i].local)].local != ents[i].local)
    || (exists i, j :: 0 <= i < j < |ents| && ents[i].local != ents[j].local &&
                       EntityId(short, ents[i].local) == EntityId(short, ents[j].local))
  }

  /** The end of a relation is declared in the list, or an entity that is left has its key. */
  predicate Reaches(es: map<Handle, EntityRow>, short: string, f: Handle, ents: seq<Record<string>>, local: string)
    requires forall r :: r in ents ==> r.Entity?
  {
    || (exists i :: 0 <= i < |ents| && ents[i].local == local)
    || (Left(es, f, EntityId(short, local)) && es[EntityId(short, local)].local == local)
  }

  // ---- Inserting ---------------------------------------------------------------------------------------------

  /** After the insertions each handle has the key of its old row, or else of the list. */
  lemma {:induction false} InsertedLocals(es: map<Handle, EntityRow>, short: string, ents: seq<Record<string>>, id: Handle)
    requires (forall r :: r in ents ==> r.Entity?) && Inserted(es, short, ents).Ok?
    ensures var after := Inserted(es, short, ents).value;
            && (id in after <==> id in es || exists i :: 0 <= i < |ents| && EntityId(short, ents[i].local) == id)
            && (id in es ==> id in after && after[id].local == es[id].local)
            && (forall i :: 0 <= i < |ents| && EntityId(short, ents[i].local) == id ==>
                            id in after && after[id].local == ents[i].local)
  {
    hide EntityId;
    if ents != [] {
      var init, last := ents[..|ents| - 1], ents[|ents| - 1];
      assert forall r :: r in init ==> r in ents;
      InsertedLocals(es, short, init, id);
      assert forall i :: 0 <= i < |init| ==> ents[i] == init[i];
    }
  }

  /** The insertions fail exactly when two keys have one handle. */
  lemma {:induction false} InsertedFails(es: map<Handle, EntityRow>, short: string, ents: seq<Record<string>>)
    requires forall r :: r in ents ==> r.Entity?
    ensures Inserted(es, short, ents).Err? <==>
            || (exists i :: 0 <= i < |ents| && EntityId(short, ents[i].local) in es &&
                            es[EntityId(short, ents[i].local)].local != ents[i].local)
            || (exists i, j :: 0 <= i < j < |ents| && ents[i].local != ents[j].local &&
                               EntityId(short, ents[i].local) == EntityId(short, ents[j].local))
  {
    hide EntityId;
    if ents != [] {
      var init, last := ents[..|ents| - 1], ents[|ents| - 1];
      assert forall r :: r in init ==> r in ents;
      InsertedFails(es, short, init);
      assert forall i :: 0 <= i < |init| ==> ents[i] == init[i];
      assert ents[|init|] == last;
      if Inserted(es, short, init).Ok? {
        InsertedLocals(es, short, init, EntityId(short, last.local));
      }
    }
  }

  // ---- The whole transaction ---------------------------------------------------------------------------------

  lemma KeptIsLeft(es: map<Handle, EntityRow>, f: Handle, id: Handle)
    ensures id in KeptEntities(es, f) <==> Left(es, f, id)
    ensures id in KeptEntities(es, f) ==> KeptEntities(es, f)[id] == es[id]
  {
  }

  lemma ClashFails(es: map<Handle, EntityRow>, short: string, f: Handle, ents: seq<Record<string>>)
    requires forall r :: r in ents ==> r.Entity?
    ensures Inserted(KeptEntities(es, f), short, ents).Err? <==> Clash(es, short, f, ents)
  {
    hide EntityId, KeptEntities, Left, Inserted;
    InsertedFails(KeptEntities(es, f), short, ents);
    forall id ensures id in KeptEntities(es, f) <==> Left(es, f, id)
              ensures id in KeptEntities(es, f) ==> id in es && KeptEntities(es, f)[id] == es[id]
    {
      KeptIsLeft(es, f, id);
      LeftIn(es, f, id);
    }
  }

  lemma LeftIn(es: map<Handle, EntityRow>, f: Handle, id: Handle)
    ensures Left(es, f, id) ==> id in es
  {
  }

  lemma ReachesResolves(es: map<Handle, EntityRow>, short: string, f: Handle, ents: seq<Record<string>>, local: string)
    requires (forall r :: r in ents ==> r.Entity?) && Inserted(KeptEntities(es, f), short, ents).Ok?
    ensures Resolves(Inserted(KeptEntities(es, f), short, ents).value, short, local) <==> Reaches(es, short, f, ents, local)
  {
    hide EntityId, KeptEntities, Left, Inserted;
    var id := EntityId(short, local);
    InsertedLocals(KeptEntities(es, f), short, ents, id);
    KeptIsLeft(es, f, id);
    LeftIn(es, f, id);
  }

  /**
   * The transaction is rolled back exactly when some key is empty or declared twice, some relation lacks its kind or an
   * end, two keys have one handle, some end is reached by no key, or some source row names neither a declared key nor
   * the end of a relation.
   */
  lemma RefusedExactly(t: Tables, short: string, f: Handle, rs: seq<Record<string>>, run: string)
    ensures var ents, rels, srcs := EntitiesOf(rs), RelationsOf(rs), SourcesOf(rs);
            Replaced(t, short, f, rs, run).Err? <==>
            || (exists x :: x in ents && x.local == "")
            || (exists i, j :: 0 <= i < j < |ents| && ents[i].local == ents[j].local)
            || (exists r :: r in rels && (r.kind == "" || r.src == "" || r.dst == ""))
            || Clash(t.entities, short, f, ents)
            || (exists r :: r in rels && !(Reaches(t.entities, short, f, ents, r.src) &&
                                           Reaches(t.entities, short, f, ents, r.dst)))
            || (exists s :: s in srcs && (forall x :: x in ents ==> x.local != s.entity) &&
                            forall r :: r in rels ==> r.src != s.entity && r.dst != s.entity)
  {
    hide EntityId, Reaches, Clash, KeptEntities, Inserted, Assembled, Resolves;
    var ents, rels, srcs := EntitiesOf(rs), RelationsOf(rs), SourcesOf(rs);
    ClashFails(t.entities, short, f, ents);
    LocalsPlain(ents);
    RelationsPlain(rels);
    SourcesPlain(ents, rels, srcs);
    if Inserted(KeptEntities(t.entities, f), short, ents).Ok? {
      var es := Inserted(KeptEntities(t.entities, f), short, ents).value;
      forall local ensures Resolves(es, short, local) <==> Reaches(t.entities, short, f, ents, local) {
        ReachesResolves(t.entities, short, f, ents, local);
      }
      EndpointsPlain(es, short, rels);
    }
  }

  lemma LocalsPlain(ents: seq<Record<string>>)
    requires forall r :: r in ents ==> r.Entity?
    ensures LocalsValid(ents) <==>
            !(exists x :: x in ents && x.local == "") &&
            !(exists i, j :: 0 <= i < j < |ents| && ents[i].local == ents[j].local)
  {
    if x :| x in ents && x.local == "" {
      var i :| 0 <= i < |ents| && ents[i] == x;
    }
  }

  lemma RelationsPlain(rels: seq<Record<string>>)
    requires forall r :: r in rels ==> r.Relation?
    ensures RelationsValid(rels) <==> !(exists r :: r in rels && (r.kind == "" || r.src == "" || r.dst == ""))
  {
    if r :| r in rels && (r.kind == "" || r.src == "" || r.dst == "") {
      var i :| 0 <= i < |rels| && rels[i] == r;
    }
  }

  lemma EndpointsPlain(es: map<Handle, EntityRow>, short: string, rels: seq<Record<string>>)
    requires forall r :: r in rels ==> r.Relation?
    ensures EndpointsResolve(es, short, rels) <==>
            !(exists r :: r in rels && !(Resolves(es, short, r.src) && Resolves(es, short, r.dst)))
  {
    hide Resolves;
    if r :| r in rels && !(Resolves(es, short, r.src) && Resolves(es, short, r.dst)) {
      var i :| 0 <= i < |rels| && rels[i] == r;
    }
  }

  lemma SourcesPlain(ents: seq<Record<string>>, rels: seq<Record<string>>, srcs: seq<Record<string>>)
    requires forall r :: r in ents ==> r.Entity?
    requires forall r :: r in rels ==> r.Relation?
    requires forall r :: r in srcs ==> r.Source?
    ensures SourcesKnown(ents, rels, srcs) <==>
            !(exists s :: s in srcs && (forall x :: x in ents ==> x.local != s.entity) &&
                          forall r :: r in rels ==> r.src != s.entity && r.dst != s.entity)
  {
    forall s | s in srcs
      ensures SourceKnown(ents, rels, s.entity) <==>
              !((forall x :: x in ents ==> x.local != s.entity) &&
                forall r :: r in rels ==> r.src != s.entity && r.dst != s.entity)
    {
      SourcePlain(ents, rels, s.entity);
    }
    if s :| s in srcs && !SourceKnown(ents, rels, s.entity) {
      var i :| 0 <= i < |srcs| && srcs[i] == s;
    }
  }

  lemma SourcePlain(ents: seq<Record<string>>, rels: seq<Record<string>>, local: string)
    requires forall r :: r in ents ==> r.Entity?
    requires forall r :: r in rels ==> r.Relation?
    ensures SourceKnown(ents, rels, local) <==>
            !((forall x :: x in ents ==> x.local != local) && forall r :: r in rels ==> r.src != local && r.dst != local)
  {
    if x :| x in ents && x.local == local {
      var i :| 0 <= i < |ents| && ents[i] == x;
    }
    if r :| r in rels && (r.src == local || r.dst == local) {
      var i :| 0 <= i < |rels| && rels[i] == r;
    }
  }

  // ---- The rows that go --------------------------------------------------------------------------------------

  /** The entity belongs to the function. */
  predicate BelongsTo(es: map<Handle, EntityRow>, f: Handle, id: Handle) {
    id in es && es[id].functionId == Some(f)
  }

  /**
   * Of the old relation rows exactly those go that are the function's or touch one of its entities at either end, and
   * of the old source rows those of its entities; all others stay as often as they were, and the new rows are added.
   */
  lemma RemovedExactly(t: Tables, short: string, f: Handle, rs: seq<Record<string>>, run: string, r: R.Relation,
                       s: SourceRow)
    requires Replaced(t, short, f, rs, run).Ok?
    ensures var t', es := Replaced(t, short, f, rs, run).value, t.entities;
            && multiset(t'.relations)[r] ==
               (if r.functionId == Some(f) || BelongsTo(es, f, r.src) || BelongsTo(es, f, r.dst) then 0
                else multiset(t.relations)[r]) + multiset(RelationRows(short, f, run, RelationsOf(rs)))[r]
            && multiset(t'.sources)[s] ==
               (if BelongsTo(es, f, s.entity) then 0 else multiset(t.sources)[s]) +
               multiset(SourceRows(short, run, SourcesOf(rs)))[s]
  {
    hide Inserted, LocalsValid, RelationsValid, EndpointsResolve, SourcesKnown, EntitiesOf, RelationsOf, SourcesOf,
         RelationRows, SourceRows, Placed, MarkReady, Certified, KeptRelations, KeptSources, KeptEntities;
    KeptRelationsCount(t.entities, f, t.relations, r);
    KeptSourcesCount(t.entities, f, t.sources, s);
  }

  lemma {:induction false} KeptRelationsCount(es: map<Handle, EntityRow>, f: Handle, rows: seq<R.Relation>, r: R.Relation)
    ensures multiset(KeptRelations(es, f, rows))[r] ==
            if r.functionId == Some(f) || BelongsTo(es, f, r.src) || BelongsTo(es, f, r.dst) then 0
            else multiset(rows)[r]
  {
    if rows != [] {
      KeptRelationsCount(es, f, rows[..|rows| - 1], r);
      assert rows == rows[..|rows| - 1] + [rows[|rows| - 1]];
    }
  }

  lemma {:induction false} KeptSourcesCount(es: map<Handle, EntityRow>, f: Handle, rows: seq<SourceRow>, s: SourceRow)
    ensures multiset(KeptSources(es, f, rows))[s] == if BelongsTo(es, f, s.entity) then 0 else multiset(rows)[s]
  {
    if rows != [] {
      KeptSourcesCount(es, f, rows[..|rows| - 1], s);
      assert rows == rows[..|rows| - 1] + [rows[|rows| - 1]];
    }
  }
}
