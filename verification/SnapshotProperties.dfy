/**
 * What replacing one function's snapshot keeps, for tables and record lists of any size: the scoping of rows, the
 * rows of every other function, and the result of doing it twice.
 */
module SnapshotProperties {
  import opened Wrappers
  import opened Keys
  import opened Records
  import opened Snapshot
  import R = Relations

  // ---- The invariant of the tables ---------------------------------------------------------------------------

  /** The function a key belongs to, which the key itself tells. */
  function OwnerOf(short: string, local: string): Option<Handle> {
    match Scope(local)
    case None => None
    case Some(key) => Some(FunctionHandle(short, key))
  }

  predicate RowOk(id: Handle, e: EntityRow) {
    && IsShort(e.short) && id == EntityId(e.short, e.local) && ':' in e.local
    && e.functionId == OwnerOf(e.short, e.local)
    && (ModuleScoped(e.kind) <==> Scope(e.local).None?)
  }

  ghost predicate EntitiesOk(es: map<Handle, EntityRow>) {
    forall id :: id in es ==> RowOk(id, es[id])
  }

  /** The handle is made from the row's key, and what belongs to the module has no owner. */
  predicate KeyOk(id: Handle, e: EntityRow) {
    && IsShort(e.short) && id == EntityId(e.short, e.local) && ':' in e.local
    && (Scope(e.local).None? ==> e.functionId.None?)
  }

  /** What holds of the entities whatever is committed under whatever function. */
  ghost predicate Keyed(es: map<Handle, EntityRow>) {
    forall id :: id in es ==> KeyOk(id, es[id])
  }

  lemma OkIsKeyed(es: map<Handle, EntityRow>)
    requires EntitiesOk(es)
    ensures Keyed(es)
  {
    hide EntityId, Scope, FunctionHandle;
    forall id | id in es ensures KeyOk(id, es[id]) {
      assert RowOk(id, es[id]);
    }
  }

  /** A relation row belongs to a function, and its ends lie in that function or in the module. */
  predicate RelationOk(es: map<Handle, EntityRow>, r: R.Relation) {
    && r.functionId.Some? && r.src in es && r.dst in es
    && (es[r.src].functionId == None || es[r.src].functionId == r.functionId)
    && (es[r.dst].functionId == None || es[r.dst].functionId == r.functionId)
  }

  ghost predicate TablesOk(t: Tables) {
    && EntitiesOk(t.entities)
    && (forall r :: r in t.relations ==> RelationOk(t.entities, r))
    && (forall s :: s in t.sources ==> s.entity in t.entities)
  }

  /** The function whose snapshot is replaced: a catalogued function of an artifact. */
  predicate Target(t: Tables, short: string, key: string, f: Handle) {
    && IsShort(short) && ':' !in key && f == FunctionHandle(short, key)
    && f in t.entities
  }

  /** A key that names something of the module: it carries no function key of its own. */
  predicate InScope(key: string, local: string) {
    ':' in local && (Scope(local) == None || Scope(local) == Some(key))
  }

  /** What is asked of a record list so that it can replace the snapshot of function `key`. */
  ghost predicate GoodRecords(t: Tables, short: string, key: string, rs: seq<Record<string>>) {
    && Unambiguous(rs)
    && (exists i :: 0 <= i < |rs| && rs[i].Entity? && rs[i].local == "function:" + key)
    && (forall r :: r in rs ==>
          match r
          case Entity(kind, local, _, _, _, _) =>
            InScope(key, local) && (ModuleScoped(kind) <==> Scope(local) == None)
          case Relation(kind, src, dst, _, _) =>
            && kind != "" && InScope(key, src) && InScope(key, dst)
            && (Declares(rs, src) || EntityId(short, src) in t.entities)
            && (Declares(rs, dst) || EntityId(short, dst) in t.entities)
            && (Scope(src).Some? ==> Declares(rs, src)) && (Scope(dst).Some? ==> Declares(rs, dst))
          case Source(entity, _, _) => Declares(rs, entity) && Scope(entity) == Some(key)
          case _ => true)
  }

  // ---- Handles -----------------------------------------------------------------------------------------------

  /** Keys with a colon are told apart by their handles. */
  lemma IdsTellKeys(short: string, local: string, short': string, local': string)
    requires IsShort(short) && IsShort(short') && ':' in local && ':' in local'
    requires EntityId(short, local) == EntityId(short', local')
    ensures short == short' && local == local'
  {
    EntityIdInjective(short, local, short', local');
  }

  lemma RowAt(es: map<Handle, EntityRow>, short: string, local: string)
    requires Keyed(es) && IsShort(short) && ':' in local && EntityId(short, local) in es
    ensures es[EntityId(short, local)].local == local && es[EntityId(short, local)].short == short
  {
    hide EntityId, Scope;
    var e := es[EntityId(short, local)];
    assert KeyOk(EntityId(short, local), e);
    IdsTellKeys(short, local, e.short, e.local);
  }

  // ---- Deleting ----------------------------------------------------------------------------------------------

  /** The rows of one function, in table order. */
  function RowsOf(g: Handle, rows: seq<R.Relation>): seq<R.Relation> {
    if rows == [] then []
    else
      var init, last := RowsOf(g, rows[..|rows| - 1]), rows[|rows| - 1];
      if last.functionId == Some(g) then init + [last] else init
  }

  /** By scoping, the extra clauses of the DELETE remove nothing: only the function's own rows go. */
  lemma StaleIsOwn(t: Tables, f: Handle, r: R.Relation)
    requires TablesOk(t) && RelationOk(t.entities, r)
    ensures Stale(t.entities, f, r) <==> r.functionId == Some(f)
  {
    hide RowOk, TablesOk;
  }

  lemma {:induction false} KeptRelationsOthers(t: Tables, f: Handle, g: Handle, rows: seq<R.Relation>)
    requires TablesOk(t) && f != g && (forall r :: r in rows ==> RelationOk(t.entities, r))
    ensures RowsOf(g, KeptRelations(t.entities, f, rows)) == RowsOf(g, rows)
  {
    if rows != [] {
      var init, last := rows[..|rows| - 1], rows[|rows| - 1];
      KeptRelationsOthers(t, f, g, init);
      StaleIsOwn(t, f, last);
      var kept := KeptRelations(t.entities, f, init);
      assert (kept + [last])[..|kept|] == kept;
    }
  }

  lemma {:induction false} RowsOfAppend(g: Handle, a: seq<R.Relation>, b: seq<R.Relation>)
    ensures RowsOf(g, a + b) == RowsOf(g, a) + RowsOf(g, b)
  {
    if b == [] {
      assert a + b == a;
    } else {
      var init := b[..|b| - 1];
      RowsOfAppend(g, a, init);
      assert (a + b)[..|a + b| - 1] == a + init;
    }
  }

  lemma {:induction false} RowsOfAll(g: Handle, rows: seq<R.Relation>, f: Handle)
    requires forall r :: r in rows ==> r.functionId == Some(f)
    ensures RowsOf(g, rows) == if g == f then rows else []
  {
    if rows != [] {
      assert rows == rows[..|rows| - 1] + [rows[|rows| - 1]];
      RowsOfAll(g, rows[..|rows| - 1], f);
    }
  }

  lemma {:induction false} KeptRelationsIn(es: map<Handle, EntityRow>, f: Handle, rows: seq<R.Relation>)
    ensures forall r :: r in KeptRelations(es, f, rows) <==> r in rows && !Stale(es, f, r)
  {
    if rows != [] {
      KeptRelationsIn(es, f, rows[..|rows| - 1]);
      assert rows == rows[..|rows| - 1] + [rows[|rows| - 1]];
    }
  }

  lemma {:induction false} KeptSourcesIn(es: map<Handle, EntityRow>, f: Handle, rows: seq<SourceRow>)
    ensures forall r :: r in KeptSources(es, f, rows) <==> r in rows && !Owned(es, f, r.entity)
  {
    if rows != [] {
      KeptSourcesIn(es, f, rows[..|rows| - 1]);
      assert rows == rows[..|rows| - 1] + [rows[|rows| - 1]];
    }
  }

  // ---- Inserting ---------------------------------------------------------------------------------------------

  ghost predicate GoodEntities(key: string, ents: seq<Record<string>>) {
    && (forall r :: r in ents ==> r.Entity? && InScope(key, r.local) &&
                                  (ModuleScoped(r.kind) <==> Scope(r.local) == None))
    && (forall i, j :: 0 <= i < j < |ents| ==> ents[i].local != ents[j].local)
  }

  /** The handles of the entity records. */
  function Ids(short: string, ents: seq<Record<string>>): set<Handle>
    requires forall r :: r in ents ==> r.Entity?
  {
    if ents == [] then {}
    else Ids(short, ents[..|ents| - 1]) + {EntityId(short, ents[|ents| - 1].local)}
  }

  lemma {:induction false} IdsExact(short: string, ents: seq<Record<string>>, id: Handle)
    requires forall r :: r in ents ==> r.Entity?
    ensures id in Ids(short, ents) <==> exists i :: 0 <= i < |ents| && EntityId(short, ents[i].local) == id
  {
    hide EntityId;
    if ents != [] {
      var init := ents[..|ents| - 1];
      IdsExact(short, init, id);
      if i :| 0 <= i < |init| && EntityId(short, init[i].local) == id {
        assert ents[i] == init[i];
      }
      if i :| 0 <= i < |ents| && EntityId(short, ents[i].local) == id {
        assert i < |init| ==> ents[i] == init[i];
      }
    }
  }

  lemma GoodInit(key: string, ents: seq<Record<string>>)
    requires GoodEntities(key, ents) && ents != []
    ensures forall r :: r in ents ==> r.Entity?
    ensures GoodEntities(key, ents[..|ents| - 1])
    ensures ents[|ents| - 1].Entity? && InScope(key, ents[|ents| - 1].local)
    ensures ModuleScoped(ents[|ents| - 1].kind) <==> Scope(ents[|ents| - 1].local) == None
  {
    hide Scope, InScope, ModuleScoped;
    assert ents[|ents| - 1] in ents;
    assert forall r :: r in ents[..|ents| - 1] ==> r in ents;
  }

  lemma LastNew(short: string, key: string, ents: seq<Record<string>>)
    requires IsShort(short) && GoodEntities(key, ents) && ents != []
    ensures EntityId(short, ents[|ents| - 1].local) !in Ids(short, ents[..|ents| - 1])
  {
    hide EntityId, Scope;
    var init, last := ents[..|ents| - 1], ents[|ents| - 1];
    assert last in ents;
    IdsExact(short, init, EntityId(short, last.local));
    forall i | 0 <= i < |init| ensures EntityId(short, init[i].local) != EntityId(short, last.local) {
      assert init[i] == ents[i] && ents[i] in ents;
      if EntityId(short, init[i].local) == EntityId(short, last.local) {
        IdsTellKeys(short, init[i].local, short, last.local);
      }
    }
  }

  /** Insertion succeeds, adds exactly the handles of the records and leaves every other row alone. */
  lemma {:induction false} InsertedOutside(es: map<Handle, EntityRow>, short: string, key: string,
                                           ents: seq<Record<string>>, id: Handle)
    requires Keyed(es) && IsShort(short) && GoodEntities(key, ents)
    ensures Inserted(es, short, ents).Ok?
    ensures id in Inserted(es, short, ents).value <==> id in es || id in Ids(short, ents)
    ensures id in es && id !in Ids(short, ents) ==> Inserted(es, short, ents).value[id] == es[id]
    decreases |ents|
  {
    hide EntityId, Scope, Upsert, IsShort, Keyed, GoodEntities, InScope;
    if ents != [] {
      GoodInit(key, ents);
      var init, last := ents[..|ents| - 1], ents[|ents| - 1];
      var lastId := EntityId(short, last.local);
      InsertedOutside(es, short, key, init, id);
      InsertedOutside(es, short, key, init, lastId);
      LastNew(short, key, ents);
      if lastId in es {
        HasColon(key, last.local);
        RowAt(es, short, last.local);
      }
    }
  }

  lemma HasColon(key: string, local: string)
    requires InScope(key, local)
    ensures ':' in local
  {
  }

  /** Each record's row is what inserting that record alone would make it. */
  lemma {:induction false} InsertedRow(es: map<Handle, EntityRow>, short: string, key: string,
                                       ents: seq<Record<string>>, i: nat)
    requires Keyed(es) && IsShort(short) && GoodEntities(key, ents) && i < |ents|
    ensures ents[i].Entity? && Inserted(es, short, ents).Ok?
    ensures EntityId(short, ents[i].local) in Inserted(es, short, ents).value
    ensures Inserted(es, short, ents).value[EntityId(short, ents[i].local)] == Upsert(es, short, ents[i])
    decreases |ents|
  {
    hide EntityId, Scope, IsShort, Keyed, GoodEntities, InScope;
    GoodInit(key, ents);
    var init, last := ents[..|ents| - 1], ents[|ents| - 1];
    var lastId := EntityId(short, last.local);
    InsertedOutside(es, short, key, ents, lastId);
    InsertedOutside(es, short, key, init, lastId);
    LastNew(short, key, ents);
    if i < |init| {
      InsertedRow(es, short, key, init, i);
      assert init[i] == ents[i];
      IdsExact(short, init, EntityId(short, init[i].local));
    }
  }

  /** What a placed record's row looks like, given the row it was inserted as. */
  function Settled(short: string, f: Handle, rels: seq<Record<string>>, r: Record<string>, row: EntityRow): EntityRow
    requires r.Entity? && (forall x :: x in rels ==> x.Relation?)
  {
    if ModuleScoped(r.kind) then row
    else row.(functionId := Some(f), blockId := BlockIdFor(short, rels, r))
  }

  lemma {:induction false} PlacedOutside(es: map<Handle, EntityRow>, short: string, f: Handle,
                                         rels: seq<Record<string>>, ents: seq<Record<string>>, id: Handle)
    requires forall r :: r in ents ==> r.Entity? && EntityId(short, r.local) in es
    requires forall x :: x in rels ==> x.Relation?
    ensures id in es && id !in Ids(short, ents) ==> Placed(es, short, f, rels, ents)[id] == es[id]
  {
    hide EntityId, BlockIdFor;
    if ents != [] {
      PlacedOutside(es, short, f, rels, ents[..|ents| - 1], id);
    }
  }

  lemma {:induction false} PlacedRow(es: map<Handle, EntityRow>, short: string, key: string, f: Handle,
                                     rels: seq<Record<string>>, ents: seq<Record<string>>, i: nat)
    requires IsShort(short) && GoodEntities(key, ents) && i < |ents|
    requires forall r :: r in ents ==> r.Entity? && EntityId(short, r.local) in es
    requires forall x :: x in rels ==> x.Relation?
    ensures EntityId(short, ents[i].local) in es
    ensures Placed(es, short, f, rels, ents)[EntityId(short, ents[i].local)] ==
            Settled(short, f, rels, ents[i], es[EntityId(short, ents[i].local)])
  {
    hide EntityId, BlockIdFor, GoodEntities, IsShort;
    var init, last := ents[..|ents| - 1], ents[|ents| - 1];
    var lastId := EntityId(short, last.local);
    assert ents[i] in ents && last in ents;
    GoodInit(key, ents);
    LastNew(short, key, ents);
    PlacedOutside(es, short, f, rels, init, lastId);
    if i < |init| {
      PlacedRow(es, short, key, f, rels, init, i);
      assert init[i] == ents[i];
      IdsExact(short, init, EntityId(short, init[i].local));
    }
  }

  // ---- The whole transaction ---------------------------------------------------------------------------------

  lemma {:induction false} EntitiesOfDistinct(rs: seq<Record<string>>)
    requires Unambiguous(rs)
    ensures forall i, j :: 0 <= i < j < |EntitiesOf(rs)| ==> EntitiesOf(rs)[i].local != EntitiesOf(rs)[j].local
  {
    if rs != [] {
      var init, last := rs[..|rs| - 1], rs[|rs| - 1];
      EntitiesOfDistinct(init);
      if last.Entity? {
        forall r | r in EntitiesOf(init) ensures r.local != last.local {
          var i :| 0 <= i < |init| && init[i] == r;
          assert rs[i] == r;
        }
      }
    }
  }

  lemma GoodEntitiesOf(t: Tables, short: string, key: string, rs: seq<Record<string>>)
    requires GoodRecords(t, short, key, rs)
    ensures GoodEntities(key, EntitiesOf(rs))
  {
    hide Scope, InScope, EntityId, ModuleScoped;
    EntitiesOfDistinct(rs);
  }

  lemma KeptKeyed(es: map<Handle, EntityRow>, f: Handle)
    requires Keyed(es)
    ensures Keyed(KeptEntities(es, f))
  {
    hide KeyOk;
  }

  lemma DeclaredRecord(rs: seq<Record<string>>, local: string) returns (i: nat)
    requires Declares(rs, local)
    ensures i < |EntitiesOf(rs)| && EntitiesOf(rs)[i].Entity? && EntitiesOf(rs)[i].local == local
  {
    var j :| 0 <= j < |rs| && rs[j].Entity? && rs[j].local == local;
    assert rs[j] in rs;
    assert rs[j] in EntitiesOf(rs);
    i :| 0 <= i < |EntitiesOf(rs)| && EntitiesOf(rs)[i] == rs[j];
  }

  /** A declared key resolves after insertion. */
  lemma DeclaredResolves(t: Tables, short: string, key: string, f: Handle, rs: seq<Record<string>>, local: string)
    requires Keyed(t.entities) && IsShort(short) && GoodRecords(t, short, key, rs) && Declares(rs, local)
    ensures Inserted(KeptEntities(t.entities, f), short, EntitiesOf(rs)).Ok?
    ensures Resolves(Inserted(KeptEntities(t.entities, f), short, EntitiesOf(rs)).value, short, local)
  {
    hide Scope, EntityId, Keyed, GoodRecords, IsShort, Unambiguous;
    GoodEntitiesOf(t, short, key, rs);
    KeptKeyed(t.entities, f);
    var i := DeclaredRecord(rs, local);
    InsertedRow(KeptEntities(t.entities, f), short, key, EntitiesOf(rs), i);
    assert EntitiesOf(rs)[i] in EntitiesOf(rs);
    if EntityId(short, local) in KeptEntities(t.entities, f) {
      RowAt(KeptEntities(t.entities, f), short, local);
    }
  }

  lemma ClaimedIsDeclared(short: string, key: string, rs: seq<Record<string>>, local: string)
    requires IsShort(short) && GoodEntities(key, EntitiesOf(rs)) && ':' in local
    requires EntityId(short, local) in Ids(short, EntitiesOf(rs))
    ensures Declares(rs, local)
  {
    hide Scope, EntityId, IsShort;
    var ents := EntitiesOf(rs);
    IdsExact(short, ents, EntityId(short, local));
    var i :| 0 <= i < |ents| && EntityId(short, ents[i].local) == EntityId(short, local);
    assert ents[i] in ents;
    IdsTellKeys(short, ents[i].local, short, local);
    assert ents[i] in rs;
    var j :| 0 <= j < |rs| && rs[j] == ents[i];
  }

  /** A catalogued key that is not declared still resolves after insertion, since it belongs to the module. */
  lemma CataloguedResolves(t: Tables, short: string, key: string, f: Handle, rs: seq<Record<string>>, local: string)
    requires Keyed(t.entities) && IsShort(short) && GoodRecords(t, short, key, rs)
    requires !Declares(rs, local) && EntityId(short, local) in t.entities && ':' in local && Scope(local) == None
    ensures Inserted(KeptEntities(t.entities, f), short, EntitiesOf(rs)).Ok?
    ensures Resolves(Inserted(KeptEntities(t.entities, f), short, EntitiesOf(rs)).value, short, local)
  {
    hide Scope, EntityId, GoodRecords, Unambiguous;
    GoodEntitiesOf(t, short, key, rs);
    KeptKeyed(t.entities, f);
    var id := EntityId(short, local);
    RowAt(t.entities, short, local);
    assert KeyOk(id, t.entities[id]);
    assert id in KeptEntities(t.entities, f);
    InsertedOutside(KeptEntities(t.entities, f), short, key, EntitiesOf(rs), id);
    if id in Ids(short, EntitiesOf(rs)) {
      ClaimedIsDeclared(short, key, rs, local);
    }
  }

  lemma EndpointResolves(t: Tables, short: string, key: string, f: Handle, rs: seq<Record<string>>, r: Record<string>)
    requires Keyed(t.entities) && IsShort(short) && GoodRecords(t, short, key, rs) && r in rs && r.Relation?
    ensures Inserted(KeptEntities(t.entities, f), short, EntitiesOf(rs)).Ok?
    ensures Resolves(Inserted(KeptEntities(t.entities, f), short, EntitiesOf(rs)).value, short, r.src)
    ensures Resolves(Inserted(KeptEntities(t.entities, f), short, EntitiesOf(rs)).value, short, r.dst)
    ensures r.kind != "" && r.src != "" && r.dst != ""
  {
    hide Scope, EntityId, Keyed, Declares, Resolves, Unambiguous, IsShort;
    if Declares(rs, r.src) {
      DeclaredResolves(t, short, key, f, rs, r.src);
    } else {
      CataloguedResolves(t, short, key, f, rs, r.src);
    }
    if Declares(rs, r.dst) {
      DeclaredResolves(t, short, key, f, rs, r.dst);
    } else {
      CataloguedResolves(t, short, key, f, rs, r.dst);
    }
  }

  /** Good records pass every validation, so the transaction commits, whichever function it is for. */
  lemma ReplacedCommits(t: Tables, short: string, key: string, f: Handle, rs: seq<Record<string>>, run: string)
    requires Keyed(t.entities) && IsShort(short) && GoodRecords(t, short, key, rs)
    ensures Replaced(t, short, f, rs, run).Ok?
  {
    hide Scope, EntityId, Keyed, Declares, Resolves, Unambiguous, IsShort, Inserted, Placed;
    var ents, rels, srcs := EntitiesOf(rs), RelationsOf(rs), SourcesOf(rs);
    GoodEntitiesOf(t, short, key, rs);
    KeptKeyed(t.entities, f);
    InsertedOutside(KeptEntities(t.entities, f), short, key, ents, f);
    assert LocalsValid(ents) by {
      assert forall i :: 0 <= i < |ents| ==> ents[i] in ents;
    }
    forall i | 0 <= i < |rels|
      ensures Resolves(Inserted(KeptEntities(t.entities, f), short, ents).value, short, rels[i].src)
      ensures Resolves(Inserted(KeptEntities(t.entities, f), short, ents).value, short, rels[i].dst)
      ensures rels[i].kind != "" && rels[i].src != "" && rels[i].dst != ""
    {
      assert rels[i] in rels;
      EndpointResolves(t, short, key, f, rs, rels[i]);
    }
    forall i | 0 <= i < |srcs| ensures SourceKnown(ents, rels, srcs[i].entity) {
      assert srcs[i] in srcs;
      var j := DeclaredRecord(rs, srcs[i].entity);
    }
  }

  /** A function of a catalogued artifact together with good records for it. */
  ghost predicate Setting(t: Tables, short: string, key: string, f: Handle, rs: seq<Record<string>>) {
    TablesOk(t) && Target(t, short, key, f) && GoodRecords(t, short, key, rs)
  }

  /** Keyed tables together with good records, to be committed for any function. */
  ghost predicate Fitting(t: Tables, short: string, key: string, rs: seq<Record<string>>) {
    Keyed(t.entities) && IsShort(short) && GoodRecords(t, short, key, rs)
  }

  lemma SettingFits(t: Tables, short: string, key: string, f: Handle, rs: seq<Record<string>>)
    requires Setting(t, short, key, f, rs)
    ensures Fitting(t, short, key, rs)
  {
    hide RowOk, RelationOk, GoodRecords, KeyOk, FunctionHandle, IsShort;
    OkIsKeyed(t.entities);
  }

  /** The tables after the transaction. */
  function After(t: Tables, short: string, f: Handle, rs: seq<Record<string>>, run: string): Tables {
    match Replaced(t, short, f, rs, run)
    case Ok(t') => t'
    case Err(_) => t
  }

  lemma AfterParts(t: Tables, short: string, key: string, f: Handle, rs: seq<Record<string>>, run: string)
    requires Fitting(t, short, key, rs)
    ensures var es := Inserted(KeptEntities(t.entities, f), short, EntitiesOf(rs));
            && es.Ok? && Replaced(t, short, f, rs, run).Ok?
            && (forall r :: r in EntitiesOf(rs) ==> EntityId(short, r.local) in es.value)
            && After(t, short, f, rs, run) ==
               Tables(MarkReady(Placed(es.value, short, f, RelationsOf(rs), EntitiesOf(rs)), f),
                      KeptRelations(t.entities, f, t.relations) + RelationRows(short, f, run, RelationsOf(rs)),
                      KeptSources(t.entities, f, t.sources) + SourceRows(short, run, SourcesOf(rs)),
                      Certified(t.capabilities, f, run))
  {
    hide EntityId, Keyed, GoodRecords, Inserted, Placed, KeptRelations, KeptSources, Certified, LocalsValid,
         RelationsValid, EndpointsResolve, SourcesKnown, EntitiesOf, RelationsOf, SourcesOf;
    ReplacedCommits(t, short, key, f, rs, run);
    InsertedKeys(KeptEntities(t.entities, f), short, EntitiesOf(rs));
  }

  lemma FunctionDeclared(t: Tables, short: string, key: string, f: Handle, rs: seq<Record<string>>)
    returns (i: nat)
    requires Setting(t, short, key, f, rs)
    ensures i < |EntitiesOf(rs)| && EntitiesOf(rs)[i].Entity? && EntitiesOf(rs)[i].local == "function:" + key
    ensures EntityId(short, EntitiesOf(rs)[i].local) == f && f in Ids(short, EntitiesOf(rs))
  {
    hide Scope, EntityId;
    i := DeclaredRecord(rs, "function:" + key);
    IdsExact(short, EntitiesOf(rs), f);
  }

  /** Outside the record list the surviving entities are unchanged, but for the function, and no other handle is left. */
  lemma CommitOutside(t: Tables, short: string, key: string, f: Handle, rs: seq<Record<string>>, run: string, id: Handle)
    requires Fitting(t, short, key, rs)
    ensures var t' := After(t, short, f, rs, run);
            && (id in t'.entities <==> id in KeptEntities(t.entities, f) || id in Ids(short, EntitiesOf(rs)))
            && (id in KeptEntities(t.entities, f) && id !in Ids(short, EntitiesOf(rs)) ==>
                t'.entities[id] ==
                if id == f then t.entities[id].(materialization := "structure_ready") else t.entities[id])
  {
    hide EntityId, Keyed, GoodRecords, Inserted, Placed, KeptRelations, KeptSources, Certified, After, IsShort,
         GoodEntities;
    AfterParts(t, short, key, f, rs, run);
    GoodEntitiesOf(t, short, key, rs);
    KeptKeyed(t.entities, f);
    InsertedOutside(KeptEntities(t.entities, f), short, key, EntitiesOf(rs), id);
    PlacedOutside(Inserted(KeptEntities(t.entities, f), short, EntitiesOf(rs)).value, short, f, RelationsOf(rs),
                  EntitiesOf(rs), id);
  }

  /** The function itself is declared, so outside the record list the surviving entities are unchanged. */
  lemma AfterOutside(t: Tables, short: string, key: string, f: Handle, rs: seq<Record<string>>, run: string, id: Handle)
    requires Setting(t, short, key, f, rs)
    ensures var t' := After(t, short, f, rs, run);
            && (id in t'.entities <==> id in KeptEntities(t.entities, f) || id in Ids(short, EntitiesOf(rs)))
            && (id in KeptEntities(t.entities, f) && id !in Ids(short, EntitiesOf(rs)) ==>
                t'.entities[id] == t.entities[id])
  {
    hide EntityId, TablesOk, GoodRecords, After, Fitting, KeptEntities;
    SettingFits(t, short, key, f, rs);
    CommitOutside(t, short, key, f, rs, run, id);
    var i := FunctionDeclared(t, short, key, f, rs);
  }

  /** Every record's row: updated or inserted, and put under the function unless it belongs to the module. */
  lemma AfterRow(t: Tables, short: string, key: string, f: Handle, rs: seq<Record<string>>, run: string, i: nat)
    requires Fitting(t, short, key, rs) && i < |EntitiesOf(rs)|
    ensures var t', r := After(t, short, f, rs, run), EntitiesOf(rs)[i];
            && r.Entity? && EntityId(short, r.local) in t'.entities
            && t'.entities[EntityId(short, r.local)] ==
               Settled(short, f, RelationsOf(rs), r, Upsert(KeptEntities(t.entities, f), short, r))
  {
    hide EntityId, Keyed, GoodRecords, Inserted, Placed, KeptRelations, KeptSources, Certified, After, IsShort,
         GoodEntities, BlockIdFor, KeptEntities;
    AfterParts(t, short, key, f, rs, run);
    GoodEntitiesOf(t, short, key, rs);
    KeptKeyed(t.entities, f);
    InsertedRow(KeptEntities(t.entities, f), short, key, EntitiesOf(rs), i);
    PlacedRow(Inserted(KeptEntities(t.entities, f), short, EntitiesOf(rs)).value, short, key, f, RelationsOf(rs),
              EntitiesOf(rs), i);
  }

  lemma RecordKeyOk(t: Tables, short: string, key: string, f: Handle, rs: seq<Record<string>>, r: Record<string>)
    requires Keyed(t.entities) && IsShort(short) && r.Entity?
    requires InScope(key, r.local) && (ModuleScoped(r.kind) <==> Scope(r.local) == None)
    ensures KeyOk(EntityId(short, r.local),
                  Settled(short, f, RelationsOf(rs), r, Upsert(KeptEntities(t.entities, f), short, r)))
  {
    hide EntityId, Scope, BlockIdFor, IsShort;
    var id := EntityId(short, r.local);
    if id in KeptEntities(t.entities, f) {
      assert KeyOk(id, t.entities[id]);
      RowAt(t.entities, short, r.local);
    }
  }

  /** Whatever function the records are committed for, handles go on telling keys. */
  lemma KeyedStays(t: Tables, short: string, key: string, f: Handle, rs: seq<Record<string>>, run: string)
    requires Fitting(t, short, key, rs)
    ensures Keyed(After(t, short, f, rs, run).entities)
  {
    hide EntityId, Scope, After, IsShort, KeyOk, BlockIdFor, GoodRecords, Upsert;
    var t', ents := After(t, short, f, rs, run), EntitiesOf(rs);
    forall id | id in t'.entities ensures KeyOk(id, t'.entities[id]) {
      CommitOutside(t, short, key, f, rs, run, id);
      if id in Ids(short, ents) {
        IdsExact(short, ents, id);
        var i :| 0 <= i < |ents| && EntityId(short, ents[i].local) == id;
        AfterRow(t, short, key, f, rs, run, i);
        GoodEntitiesOf(t, short, key, rs);
        assert ents[i] in ents;
        RecordKeyOk(t, short, key, f, rs, ents[i]);
      } else {
        MarkedKeyOk(id, t.entities[id]);
      }
    }
  }

  lemma MarkedKeyOk(id: Handle, e: EntityRow)
    requires KeyOk(id, e)
    ensures KeyOk(id, e.(materialization := "structure_ready"))
  {
    hide EntityId, Scope;
  }

  lemma RecordRowOk(t: Tables, short: string, key: string, f: Handle, rs: seq<Record<string>>, r: Record<string>)
    requires TablesOk(t) && Target(t, short, key, f) && r.Entity?
    requires InScope(key, r.local) && (ModuleScoped(r.kind) <==> Scope(r.local) == None)
    ensures RowOk(EntityId(short, r.local),
                  Settled(short, f, RelationsOf(rs), r, Upsert(KeptEntities(t.entities, f), short, r)))
  {
    hide EntityId, Scope, RelationOk, BlockIdFor, IsShort;
    var id := EntityId(short, r.local);
    if id in KeptEntities(t.entities, f) {
      assert RowOk(id, t.entities[id]);
      RowAt(t.entities, short, r.local);
    }
  }

  /** Replacing a snapshot keeps every row consistent with its key. */
  lemma EntitiesStayOk(t: Tables, short: string, key: string, f: Handle, rs: seq<Record<string>>, run: string)
    requires Setting(t, short, key, f, rs)
    ensures EntitiesOk(After(t, short, f, rs, run).entities)
  {
    hide EntityId, Scope, After, IsShort, RowOk, RelationOk, BlockIdFor, GoodRecords, Upsert, Target;
    var t', ents := After(t, short, f, rs, run), EntitiesOf(rs);
    forall id | id in t'.entities ensures RowOk(id, t'.entities[id]) {
      AfterOutside(t, short, key, f, rs, run, id);
      if id in Ids(short, ents) {
        IdsExact(short, ents, id);
        var i :| 0 <= i < |ents| && EntityId(short, ents[i].local) == id;
        SettingFits(t, short, key, f, rs);
        AfterRow(t, short, key, f, rs, run, i);
        GoodEntitiesOf(t, short, key, rs);
        assert ents[i] in ents;
        RecordRowOk(t, short, key, f, rs, ents[i]);
      }
    }
  }

  /** The owner of an entity depends on its handle alone. */
  lemma SameOwner(a: map<Handle, EntityRow>, b: map<Handle, EntityRow>, id: Handle)
    requires EntitiesOk(a) && EntitiesOk(b) && id in a && id in b
    ensures a[id].functionId == b[id].functionId && a[id].local == b[id].local && a[id].short == b[id].short
  {
    hide EntityId, Scope, FunctionHandle, ModuleScoped, IsShort;
    assert RowOk(id, a[id]) && RowOk(id, b[id]);
    IdsTellKeys(a[id].short, a[id].local, b[id].short, b[id].local);
  }

  lemma KeptStays(t: Tables, short: string, key: string, f: Handle, rs: seq<Record<string>>, run: string, id: Handle)
    requires Setting(t, short, key, f, rs)
    requires id in t.entities && !Owned(t.entities, f, id)
    ensures id in After(t, short, f, rs, run).entities
    ensures After(t, short, f, rs, run).entities[id].functionId == t.entities[id].functionId
  {
    hide After, RowOk, RelationOk, GoodRecords, Target, Scope, EntityId;
    AfterOutside(t, short, key, f, rs, run, id);
    EntitiesStayOk(t, short, key, f, rs, run);
    SameOwner(t.entities, After(t, short, f, rs, run).entities, id);
  }

  lemma EndpointPlaced(t: Tables, short: string, key: string, f: Handle, rs: seq<Record<string>>, run: string,
                       local: string)
    requires Setting(t, short, key, f, rs) && InScope(key, local)
    requires Declares(rs, local) || EntityId(short, local) in t.entities
    requires Scope(local).Some? ==> Declares(rs, local)
    ensures var t', id := After(t, short, f, rs, run), EntityId(short, local);
            && id in t'.entities && t'.entities[id].local == local && t'.entities[id].short == short
            && (t'.entities[id].functionId == None || t'.entities[id].functionId == Some(f))
            && (Scope(local).Some? ==> t'.entities[id].functionId == Some(f))
  {
    hide After, RelationOk, GoodRecords, Scope, EntityId, Unambiguous, ModuleScoped;
    var t', id := After(t, short, f, rs, run), EntityId(short, local);
    EntitiesStayOk(t, short, key, f, rs, run);
    AfterOutside(t, short, key, f, rs, run, id);
    if Declares(rs, local) {
      var i := DeclaredRecord(rs, local);
      IdsExact(short, EntitiesOf(rs), id);
    } else {
      RowAt(t.entities, short, local);
      assert RowOk(id, t.entities[id]);
    }
    RowAt(t'.entities, short, local);
    assert RowOk(id, t'.entities[id]);
  }

  /** Replacing a snapshot keeps the tables well scoped and without dangling references. */
  lemma TablesStayOk(t: Tables, short: string, key: string, f: Handle, rs: seq<Record<string>>, run: string)
    requires Setting(t, short, key, f, rs)
    ensures TablesOk(After(t, short, f, rs, run))
  {
    hide After, RowOk, Scope, EntityId, Unambiguous, InScope, Target;
    var t' := After(t, short, f, rs, run);
    EntitiesStayOk(t, short, key, f, rs, run);
    SettingFits(t, short, key, f, rs);
    AfterParts(t, short, key, f, rs, run);
    forall r | r in t'.relations ensures RelationOk(t'.entities, r) {
      RelationStaysOk(t, short, key, f, rs, run, r);
    }
    forall s | s in t'.sources ensures s.entity in t'.entities {
      SourceStaysOk(t, short, key, f, rs, run, s);
    }
  }

  lemma RelationStaysOk(t: Tables, short: string, key: string, f: Handle, rs: seq<Record<string>>, run: string,
                        r: R.Relation)
    requires Setting(t, short, key, f, rs) && r in After(t, short, f, rs, run).relations
    ensures RelationOk(After(t, short, f, rs, run).entities, r)
  {
    hide *;
    var rels := RelationsOf(rs);
    SettingFits(t, short, key, f, rs);
    AfterParts(t, short, key, f, rs, run);
    if r in KeptRelations(t.entities, f, t.relations) {
      KeptRelationOk(t, short, key, f, rs, run, r);
    } else {
      assert r in RelationRows(short, f, run, rels);
      var i :| 0 <= i < |rels| && RelationRows(short, f, run, rels)[i] == r;
      assert rels[i] in rels;
      NewRelationOk(t, short, key, f, rs, run, rels[i]);
    }
  }

  lemma KeptRelationOk(t: Tables, short: string, key: string, f: Handle, rs: seq<Record<string>>, run: string,
                       r: R.Relation)
    requires Setting(t, short, key, f, rs) && r in KeptRelations(t.entities, f, t.relations)
    ensures RelationOk(After(t, short, f, rs, run).entities, r)
  {
    hide After, RowOk, EntityId, Target, GoodRecords, RelationsOf;
    SettingFits(t, short, key, f, rs);
    KeptRelationsIn(t.entities, f, t.relations);
    KeptStays(t, short, key, f, rs, run, r.src);
    KeptStays(t, short, key, f, rs, run, r.dst);
  }

  lemma NewRelationOk(t: Tables, short: string, key: string, f: Handle, rs: seq<Record<string>>, run: string,
                      r: Record<string>)
    requires Setting(t, short, key, f, rs) && r in rs && r.Relation?
    ensures RelationOk(After(t, short, f, rs, run).entities, RelationRow(short, f, run, r))
  {
    hide After, RowOk, Scope, EntityId, Unambiguous, InScope, Target, Declares, TablesOk;
    EndpointPlaced(t, short, key, f, rs, run, r.src);
    EndpointPlaced(t, short, key, f, rs, run, r.dst);
  }

  lemma SourceStaysOk(t: Tables, short: string, key: string, f: Handle, rs: seq<Record<string>>, run: string,
                      s: SourceRow)
    requires Setting(t, short, key, f, rs) && s in After(t, short, f, rs, run).sources
    ensures s.entity in After(t, short, f, rs, run).entities
  {
    hide After, RowOk, RelationOk, EntityId, Target, GoodRecords, SourcesOf;
    var t', srcs := After(t, short, f, rs, run), SourcesOf(rs);
    SettingFits(t, short, key, f, rs);
    AfterParts(t, short, key, f, rs, run);
    KeptSourcesIn(t.entities, f, t.sources);
    if s in KeptSources(t.entities, f, t.sources) {
      KeptStays(t, short, key, f, rs, run, s.entity);
    } else {
      assert s in SourceRows(short, run, srcs);
      var i :| 0 <= i < |srcs| && SourceRows(short, run, srcs)[i] == s;
      assert srcs[i] in srcs;
      NewSourceOk(t, short, key, f, rs, run, srcs[i]);
    }
  }

  lemma NewSourceOk(t: Tables, short: string, key: string, f: Handle, rs: seq<Record<string>>, run: string,
                    r: Record<string>)
    requires Setting(t, short, key, f, rs) && r in rs && r.Source?
    ensures EntityId(short, r.entity) in After(t, short, f, rs, run).entities
  {
    hide After, RowOk, RelationOk, EntityId, Unambiguous, Target, Scope, InScope, ModuleScoped, Declares, TablesOk;
    DeclaredPlaced(t, short, key, f, rs, run, r.entity);
  }

  lemma DeclaredPlaced(t: Tables, short: string, key: string, f: Handle, rs: seq<Record<string>>, run: string,
                       local: string)
    requires Setting(t, short, key, f, rs) && Declares(rs, local)
    ensures EntityId(short, local) in After(t, short, f, rs, run).entities
  {
    hide After, RowOk, Scope, EntityId, Setting;
    AfterOutside(t, short, key, f, rs, run, EntityId(short, local));
    var i := DeclaredRecord(rs, local);
    IdsExact(short, EntitiesOf(rs), EntityId(short, local));
  }
}
