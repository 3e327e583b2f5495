/**
 * Replacing the snapshot of one function: the adapter's records are validated, the old rows of the function are
 * deleted and the new ones inserted, all inside one transaction.
 */
module Snapshot {
  import opened Wrappers
  import opened Keys
  import opened Records
  import R = Relations

  type Handle = R.Handle

  /** A row of the entities table. `short` stands for the artifact. */
  datatype EntityRow = EntityRow(
    short: string,
    functionId: Option<Handle>,
    blockId: Option<Handle>,
    kind: string,
    local: string,
    ordinal: Option<int>,
    name: string,
    opcode: Option<string>,
    text: string,
    materialization: string)

  datatype SourceRow = SourceRow(entity: Handle, inlineDepth: nat, place: string, run: string)

  /** A completed capability of a function. */
  datatype Capability = Capability(precision: string, run: string)

  datatype Tables = Tables(
    entities: map<Handle, EntityRow>,
    relations: seq<R.Relation>,
    sources: seq<SourceRow>,
    capabilities: map<(Handle, string), Capability>)

  /** The capabilities that a fresh snapshot completes, with their precision. */
  const CONTRACT: map<string, string> := map[
    "entity_index" := "exact",
    "operand_graph" := "exact",
    "cfg" := "exact",
    "control_dependence" := "exact",
    "source_mapping" := "partial",
    "direct_calls" := "exact"]

  // ---- The three kinds of records ----------------------------------------------------------------------------

  function EntitiesOf(rs: seq<Record<string>>): (r: seq<Record<string>>)
    ensures forall x :: x in r <==> x in rs && x.Entity?
  {
    if rs == [] then []
    else
      var init, last := EntitiesOf(rs[..|rs| - 1]), rs[|rs| - 1];
      assert rs == rs[..|rs| - 1] + [last];
      if last.Entity? then init + [last] else init
  }

  function RelationsOf(rs: seq<Record<string>>): (r: seq<Record<string>>)
    ensures forall x :: x in r <==> x in rs && x.Relation?
  {
    if rs == [] then []
    else
      var init, last := RelationsOf(rs[..|rs| - 1]), rs[|rs| - 1];
      assert rs == rs[..|rs| - 1] + [last];
      if last.Relation? then init + [last] else init
  }

  function SourcesOf(rs: seq<Record<string>>): (r: seq<Record<string>>)
    ensures forall x :: x in r <==> x in rs && x.Source?
  {
    if rs == [] then []
    else
      var init, last := SourcesOf(rs[..|rs| - 1]), rs[|rs| - 1];
      assert rs == rs[..|rs| - 1] + [last];
      if last.Source? then init + [last] else init
  }

  // ---- Deleting the old snapshot -----------------------------------------------------------------------------

  predicate Owned(es: map<Handle, EntityRow>, f: Handle, id: Handle) {
    id in es && es[id].functionId == Some(f)
  }

  /** The DELETE on relations removes the function's rows and every row that touches one of its entities. */
  predicate Stale(es: map<Handle, EntityRow>, f: Handle, r: R.Relation) {
    r.functionId == Some(f) || Owned(es, f, r.src) || Owned(es, f, r.dst)
  }

  function KeptRelations(es: map<Handle, EntityRow>, f: Handle, rows: seq<R.Relation>): seq<R.Relation> {
    if rows == [] then []
    else
      var init, last := KeptRelations(es, f, rows[..|rows| - 1]), rows[|rows| - 1];
      if Stale(es, f, last) then init else init + [last]
  }

  function KeptSources(es: map<Handle, EntityRow>, f: Handle, rows: seq<SourceRow>): seq<SourceRow> {
    if rows == [] then []
    else
      var init, last := KeptSources(es, f, rows[..|rows| - 1]), rows[|rows| - 1];
      if Owned(es, f, last.entity) then init else init + [last]
  }

  function KeptEntities(es: map<Handle, EntityRow>, f: Handle): map<Handle, EntityRow> {
    map id | id in es && (id == f || !Owned(es, f, id)) :: es[id]
  }

  // ---- Inserting entities ------------------------------------------------------------------------------------

  /** A conflicting row keeps its kind, ordinal, name and owner; its text, opcode and state are brought up to date. */
  function Upsert(es: map<Handle, EntityRow>, short: string, r: Record<string>): EntityRow
    requires r.Entity?
  {
    var id := EntityId(short, r.local);
    if id in es then es[id].(opcode := r.opcode, text := r.text, materialization := "structure_ready")
    else EntityRow(short, None, None, r.kind, r.local, r.ordinal, r.name, r.opcode, r.text, "structure_ready")
  }

  /** Another key already holds the handle, so the insertion violates the primary key. */
  predicate Collides(es: map<Handle, EntityRow>, short: string, r: Record<string>)
    requires r.Entity?
  {
    EntityId(short, r.local) in es && es[EntityId(short, r.local)].local != r.local
  }

  function Inserted(es: map<Handle, EntityRow>, short: string, ents: seq<Record<string>>)
    : Result<map<Handle, EntityRow>, string>
    requires forall r :: r in ents ==> r.Entity?
  {
    if ents == [] then Ok(es)
    else
      var last := ents[|ents| - 1];
      match Inserted(es, short, ents[..|ents| - 1])
      case Err(e) => Err(e)
      case Ok(before) =>
        if Collides(before, short, last) then Err("primary key")
        else Ok(before[EntityId(short, last.local) := Upsert(before, short, last)])
  }

  // ---- Validation --------------------------------------------------------------------------------------------

  predicate LocalsValid(ents: seq<Record<string>>)
    requires forall r :: r in ents ==> r.Entity?
  {
    && (forall i :: 0 <= i < |ents| ==> ents[i].local != "")
    && (forall i, j :: 0 <= i < j < |ents| ==> ents[i].local != ents[j].local)
  }

  predicate RelationsValid(rels: seq<Record<string>>)
    requires forall r :: r in rels ==> r.Relation?
  {
    forall i :: 0 <= i < |rels| ==> rels[i].kind != "" && rels[i].src != "" && rels[i].dst != ""
  }

  /** The handle of a relation endpoint: declared in the list, or already in the tables. */
  predicate Resolves(es: map<Handle, EntityRow>, short: string, local: string) {
    EntityId(short, local) in es && es[EntityId(short, local)].local == local
  }

  predicate EndpointsResolve(es: map<Handle, EntityRow>, short: string, rels: seq<Record<string>>)
    requires forall r :: r in rels ==> r.Relation?
  {
    forall i :: 0 <= i < |rels| ==> Resolves(es, short, rels[i].src) && Resolves(es, short, rels[i].dst)
  }

  /** A source row may name a declared entity or any relation endpoint. */
  predicate SourceKnown(ents: seq<Record<string>>, rels: seq<Record<string>>, local: string)
    requires forall r :: r in ents ==> r.Entity?
    requires forall r :: r in rels ==> r.Relation?
  {
    || (exists i :: 0 <= i < |ents| && ents[i].local == local)
    || (exists i :: 0 <= i < |rels| && (rels[i].src == local || rels[i].dst == local))
  }

  predicate SourcesKnown(ents: seq<Record<string>>, rels: seq<Record<string>>, srcs: seq<Record<string>>)
    requires forall r :: r in ents ==> r.Entity?
    requires forall r :: r in rels ==> r.Relation?
    requires forall r :: r in srcs ==> r.Source?
  {
    forall i :: 0 <= i < |srcs| ==> SourceKnown(ents, rels, srcs[i].entity)
  }

  // ---- Placing the new rows ----------------------------------------------------------------------------------

  predicate StartsWithBlock(local: string) {
    "block:" <= local
  }

  /** The relation says that a block contains the entity `local`. */
  predicate PlacesInBlock(r: Record<string>, local: string)
    requires r.Relation?
  {
    r.kind == CONTAINS && r.dst == local && StartsWithBlock(r.src)
  }

  /** The first block that is said to contain `local`. */
  function BlockFor(rels: seq<Record<string>>, local: string): Option<string>
    requires forall r :: r in rels ==> r.Relation?
  {
    if rels == [] then None
    else if PlacesInBlock(rels[0], local) then Some(rels[0].src)
    else BlockFor(rels[1..], local)
  }

  function BlockIdFor(short: string, rels: seq<Record<string>>, r: Record<string>): Option<Handle>
    requires r.Entity?
    requires forall x :: x in rels ==> x.Relation?
  {
    if r.kind != "instruction" then None
    else match BlockFor(rels, r.local)
      case None => None
      case Some(block) => Some(EntityId(short, block))
  }

  predicate ModuleScoped(kind: string) {
    kind == "function" || kind == "global"
  }

  /** Entities inside the function are put under it; functions and globals belong to the module. */
  function Placed(es: map<Handle, EntityRow>, short: string, f: Handle, rels: seq<Record<string>>,
                  ents: seq<Record<string>>): map<Handle, EntityRow>
    requires forall r :: r in ents ==> r.Entity? && EntityId(short, r.local) in es
    requires forall x :: x in rels ==> x.Relation?
    ensures Placed(es, short, f, rels, ents).Keys == es.Keys
  {
    if ents == [] then es
    else
      var before, last := Placed(es, short, f, rels, ents[..|ents| - 1]), ents[|ents| - 1];
      var id := EntityId(short, last.local);
      if ModuleScoped(last.kind) then before
      else before[id := before[id].(functionId := Some(f), blockId := BlockIdFor(short, rels, last))]
  }

  function RelationRow(short: string, f: Handle, run: string, r: Record<string>): R.Relation
    requires r.Relation?
  {
    R.Relation(Some(f), EntityId(short, r.src), EntityId(short, r.dst), r.kind, r.ordinal, run, r.attributes)
  }

  function RelationRows(short: string, f: Handle, run: string, rels: seq<Record<string>>): (rows: seq<R.Relation>)
    requires forall r :: r in rels ==> r.Relation?
    ensures |rows| == |rels| && forall i :: 0 <= i < |rels| ==> rows[i] == RelationRow(short, f, run, rels[i])
  {
    seq(|rels|, i requires 0 <= i < |rels| => RelationRow(short, f, run, rels[i]))
  }

  function SourceRows(short: string, run: string, srcs: seq<Record<string>>): (rows: seq<SourceRow>)
    requires forall r :: r in srcs ==> r.Source?
    ensures |rows| == |srcs|
    ensures forall i :: 0 <= i < |srcs| ==>
              rows[i] == SourceRow(EntityId(short, srcs[i].entity), srcs[i].inlineDepth, srcs[i].place, run)
  {
    seq(|srcs|, i requires 0 <= i < |srcs| =>
      SourceRow(EntityId(short, srcs[i].entity), srcs[i].inlineDepth, srcs[i].place, run))
  }

  function MarkReady(es: map<Handle, EntityRow>, f: Handle): map<Handle, EntityRow> {
    if f in es then es[f := es[f].(materialization := "structure_ready")] else es
  }

  /** The function's manifest becomes exactly the contract. */
  function Certified(caps: map<(Handle, string), Capability>, f: Handle, run: string)
    : map<(Handle, string), Capability>
  {
    (map k | k in caps && k.0 != f :: caps[k]) +
    (map k | k in (set c | c in CONTRACT :: (f, c)) :: Capability(CONTRACT[k.1], run))
  }

  lemma InsertedKeys(es: map<Handle, EntityRow>, short: string, ents: seq<Record<string>>)
    requires forall r :: r in ents ==> r.Entity?
    ensures Inserted(es, short, ents).Ok? ==>
              (forall r :: r in ents ==> EntityId(short, r.local) in Inserted(es, short, ents).value) &&
              (forall id :: id in es ==> id in Inserted(es, short, ents).value)
  {
    if ents != [] {
      InsertedKeys(es, short, ents[..|ents| - 1]);
      assert forall r :: r in ents ==> r in ents[..|ents| - 1] || r == ents[|ents| - 1];
    }
  }

  /** The tables once the entities are inserted: old rows are gone, new rows are placed. */
  function Assembled(t: Tables, es: map<Handle, EntityRow>, short: string, f: Handle, rs: seq<Record<string>>, run: string)
    : Tables
    requires forall r :: r in EntitiesOf(rs) ==> EntityId(short, r.local) in es
  {
    Tables(
      MarkReady(Placed(es, short, f, RelationsOf(rs), EntitiesOf(rs)), f),
      KeptRelations(t.entities, f, t.relations) + RelationRows(short, f, run, RelationsOf(rs)),
      KeptSources(t.entities, f, t.sources) + SourceRows(short, run, SourcesOf(rs)),
      Certified(t.capabilities, f, run))
  }

  /** The committing transaction, or the reason for rolling it back. */
  function Replaced(t: Tables, short: string, f: Handle, rs: seq<Record<string>>, run: string): Result<Tables, string> {
    var ents, rels, srcs := EntitiesOf(rs), RelationsOf(rs), SourcesOf(rs);
    if !LocalsValid(ents) then Err("empty or duplicate local key")
    else if !RelationsValid(rels) then Err("relation with missing kind or endpoint")
    else
      match Inserted(KeptEntities(t.entities, f), short, ents)
      case Err(e) => Err(e)
      case Ok(es) =>
        if !EndpointsResolve(es, short, rels) then Err("relation endpoint was not declared")
        else if !SourcesKnown(ents, rels, srcs) then Err("source endpoint was not declared")
        else
          InsertedKeys(KeptEntities(t.entities, f), short, ents);
          Ok(Assembled(t, es, short, f, rs, run))
  }
}
