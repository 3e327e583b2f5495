/** The committing transaction as it runs: the tables as mutable state, and the loops over the records. */
module SnapshotCommit {
  import opened Wrappers
  import opened Keys
  import opened Records
  import opened Snapshot
  import R = Relations

  /** How many entities and relations a commit stored. */
  datatype Counts = Counts(entities: nat, relations: nat)

  /** The tables of the state database that a snapshot lives in. */
  class Database {
    var entities: map<Handle, EntityRow>
    var relations: seq<R.Relation>
    var sources: seq<SourceRow>
    var capabilities: map<(Handle, string), Capability>

    constructor (t: Tables)
      ensures Value() == t
    {
      entities, relations, sources, capabilities := t.entities, t.relations, t.sources, t.capabilities;
    }

    function Value(): (t: Tables)
      reads this
      ensures t.entities == entities && t.relations == relations
      ensures t.sources == sources && t.capabilities == capabilities
    {
      Tables(entities, relations, sources, capabilities)
    }

    /** Replaces the snapshot of `f`, or leaves every table as it was and says why. */
    method Commit(short: string, f: Handle, rs: seq<Record<string>>, run: string) returns (r: Result<Counts, string>)
      modifies this
      ensures r.Ok? <==> Replaced(old(Value()), short, f, rs, run).Ok?
      ensures r.Ok? ==> Value() == Replaced(old(Value()), short, f, rs, run).value
      ensures r.Ok? ==> r.value == Counts(|EntitiesOf(rs)|, |RelationsOf(rs)|)
      ensures r.Err? ==> Value() == old(Value()) && r.error == Replaced(old(Value()), short, f, rs, run).error
    {
      hide *;
      var ents, rels, srcs := Partition(rs);
      ReplacedStages(entities, relations, sources, capabilities, short, f, rs, run);
      var localsFine := CheckLocals(ents);
      if !localsFine {
        return Err("empty or duplicate local key");
      }
      var relationsFine := CheckRelations(rels);
      if !relationsFine {
        return Err("relation with missing kind or endpoint");
      }
      var inserted := InsertEntities(KeptEntities(entities, f), short, ents);
      if inserted.Err? {
        return Err(inserted.error);
      }
      var es := inserted.value;
      var localToId := ResolveEndpoints(es, short, ents, rels);
      var endpointsFine := CheckEndpoints(es, short, ents, rels, localToId);
      if !endpointsFine {
        return Err("relation endpoint was not declared");
      }
      var sourcesFine := CheckSources(es, short, ents, rels, srcs, localToId);
      if !sourcesFine {
        return Err("source endpoint was not declared");
      }
      var settled := PlaceEntities(es, short, f, rels, ents);
      var newRelations := RelationRows(short, f, run, rels);
      var newSources := SourceRows(short, run, srcs);
      relations := KeptRelations(entities, f, relations) + newRelations;
      sources := KeptSources(entities, f, sources) + newSources;
      entities := MarkReady(settled, f);
      capabilities := Certified(capabilities, f, run);
      r := Ok(Counts(|ents|, |rels|));
    }
  }

  /** The outcome of the transaction, stage by stage. */
  lemma ReplacedStages(entities: map<Handle, EntityRow>, relations: seq<R.Relation>, sources: seq<SourceRow>,
                       capabilities: map<(Handle, string), Capability>, short: string, f: Handle,
                       rs: seq<Record<string>>, run: string)
    ensures var ents, rels, srcs := EntitiesOf(rs), RelationsOf(rs), SourcesOf(rs);
            var r := Replaced(Tables(entities, relations, sources, capabilities), short, f, rs, run);
            var inserted := Inserted(KeptEntities(entities, f), short, ents);
            if !LocalsValid(ents) then r == Err("empty or duplicate local key")
            else if !RelationsValid(rels) then r == Err("relation with missing kind or endpoint")
            else if inserted.Err? then r == Err(inserted.error)
            else if !EndpointsResolve(inserted.value, short, rels) then r == Err("relation endpoint was not declared")
            else if !SourcesKnown(ents, rels, srcs) then r == Err("source endpoint was not declared")
            else
              && (forall x :: x in ents ==> x.Entity? && EntityId(short, x.local) in inserted.value)
              && r == Ok(Tables(
                   MarkReady(Placed(inserted.value, short, f, rels, ents), f),
                   KeptRelations(entities, f, relations) + RelationRows(short, f, run, rels),
                   KeptSources(entities, f, sources) + SourceRows(short, run, srcs),
                   Certified(capabilities, f, run)))
  {
    InsertedKeys(KeptEntities(entities, f), short, EntitiesOf(rs));
    hide EntityId, Inserted, Placed, KeptRelations, KeptSources, Certified, LocalsValid, RelationsValid,
         EndpointsResolve, SourcesKnown, EntitiesOf, RelationsOf, SourcesOf, KeptEntities;
  }

  lemma PrefixStep<T>(s: seq<T>, i: nat)
    requires i < |s|
    ensures s[..i + 1][..i] == s[..i] && s[..i + 1] == s[..i] + [s[i]]
  {
  }

  method Partition(rs: seq<Record<string>>)
    returns (ents: seq<Record<string>>, rels: seq<Record<string>>, srcs: seq<Record<string>>)
    ensures ents == EntitiesOf(rs) && rels == RelationsOf(rs) && srcs == SourcesOf(rs)
  {
    ents, rels, srcs := [], [], [];
    for i := 0 to |rs|
      invariant ents == EntitiesOf(rs[..i]) && rels == RelationsOf(rs[..i]) && srcs == SourcesOf(rs[..i])
    {
      PrefixStep(rs, i);
      if rs[i].Entity? {
        ents := ents + [rs[i]];
      } else if rs[i].Relation? {
        rels := rels + [rs[i]];
      } else if rs[i].Source? {
        srcs := srcs + [rs[i]];
      }
    }
    assert rs[..|rs|] == rs;
  }

  /** Every local key is non-empty and new. */
  method CheckLocals(ents: seq<Record<string>>) returns (fine: bool)
    requires forall r :: r in ents ==> r.Entity?
    ensures fine <==> LocalsValid(ents)
  {
    var declared: set<string> := {};
    for i := 0 to |ents|
      invariant forall j :: 0 <= j < i ==> ents[j].local != ""
      invariant forall j, l :: 0 <= j < l < i ==> ents[j].local != ents[l].local
      invariant forall x :: x in declared <==> exists j :: 0 <= j < i && ents[j].local == x
    {
      var local := ents[i].local;
      if local == "" || local in declared {
        return false;
      }
      declared := declared + {local};
    }
    fine := true;
  }

  method CheckRelations(rels: seq<Record<string>>) returns (fine: bool)
    requires forall r :: r in rels ==> r.Relation?
    ensures fine <==> RelationsValid(rels)
  {
    for i := 0 to |rels|
      invariant forall j :: 0 <= j < i ==> rels[j].kind != "" && rels[j].src != "" && rels[j].dst != ""
    {
      if rels[i].kind == "" || rels[i].src == "" || rels[i].dst == "" {
        return false;
      }
    }
    fine := true;
  }

  /** Inserts or updates the entities one by one; every inserted key resolves from then on. */
  method InsertEntities(before: map<Handle, EntityRow>, short: string, ents: seq<Record<string>>)
    returns (r: Result<map<Handle, EntityRow>, string>)
    requires forall r :: r in ents ==> r.Entity?
    ensures r == Inserted(before, short, ents)
    ensures r.Ok? ==> forall i :: 0 <= i < |ents| ==> Resolves(r.value, short, ents[i].local)
  {
    hide *;
    var es := before;
    InsertedNothing(before, short, ents);
    for i := 0 to |ents|
      invariant Inserted(before, short, ents[..i]) == Ok(es)
      invariant forall j :: 0 <= j < i ==> Resolves(es, short, ents[j].local)
    {
      assert ents[i] in ents;
      InsertedStep(before, short, ents, i);
      if Collides(es, short, ents[i]) {
        InsertedStops(before, short, ents, i + 1);
        return Err("primary key");
      }
      ghost var earlier := es;
      es := es[EntityId(short, ents[i].local) := Upsert(es, short, ents[i])];
      forall j | 0 <= j < i + 1 ensures Resolves(es, short, ents[j].local) {
        ResolvesStep(earlier, short, ents[i], ents[j].local);
      }
    }
    assert ents[..|ents|] == ents;
    r := Ok(es);
  }

  lemma InsertedNothing(es: map<Handle, EntityRow>, short: string, ents: seq<Record<string>>)
    requires forall r :: r in ents ==> r.Entity?
    ensures Inserted(es, short, ents[..0]) == Ok(es)
  {
  }

  lemma InsertedStep(es: map<Handle, EntityRow>, short: string, ents: seq<Record<string>>, i: nat)
    requires (forall r :: r in ents ==> r.Entity?) && i < |ents| && Inserted(es, short, ents[..i]).Ok?
    ensures ents[i].Entity?
    ensures var before := Inserted(es, short, ents[..i]).value;
            Inserted(es, short, ents[..i + 1]) ==
            if Collides(before, short, ents[i]) then Err("primary key")
            else Ok(before[EntityId(short, ents[i].local) := Upsert(before, short, ents[i])])
  {
    hide EntityId, Collides, Upsert;
    PrefixStep(ents, i);
  }

  lemma ResolvesStep(es: map<Handle, EntityRow>, short: string, r: Record<string>, l: string)
    requires r.Entity? && !Collides(es, short, r)
    requires l == r.local || Resolves(es, short, l)
    ensures Resolves(es[EntityId(short, r.local) := Upsert(es, short, r)], short, l)
  {
    hide EntityId;
  }

  /** A failed insertion fails the transaction. */
  lemma {:induction false} InsertedStops(es: map<Handle, EntityRow>, short: string, ents: seq<Record<string>>, n: nat)
    requires (forall r :: r in ents ==> r.Entity?) && n <= |ents|
    requires Inserted(es, short, ents[..n]).Err?
    ensures Inserted(es, short, ents) == Inserted(es, short, ents[..n])
    decreases |ents| - n
  {
    if n < |ents| {
      PrefixStep(ents, n);
      InsertedStops(es, short, ents, n + 1);
    } else {
      assert ents[..n] == ents;
    }
  }

  /** The local keys known after looking up the endpoints that the list does not declare. */
  ghost predicate Table(es: map<Handle, EntityRow>, short: string, ents: seq<Record<string>>,
                        rels: seq<Record<string>>, localToId: map<string, Handle>)
    requires forall r :: r in ents ==> r.Entity?
    requires forall r :: r in rels ==> r.Relation?
  {
    && (forall l :: l in localToId <==> Resolves(es, short, l) && SourceKnown(ents, rels, l))
    && (forall l :: l in localToId ==> localToId[l] == EntityId(short, l))
  }

  method ResolveEndpoints(es: map<Handle, EntityRow>, short: string, ents: seq<Record<string>>,
                          rels: seq<Record<string>>) returns (localToId: map<string, Handle>)
    requires forall r :: r in ents ==> r.Entity?
    requires forall r :: r in rels ==> r.Relation?
    requires forall i :: 0 <= i < |ents| ==> Resolves(es, short, ents[i].local)
    ensures Table(es, short, ents, rels, localToId)
  {
    hide EntityId, Resolves;
    localToId := map[];
    for i := 0 to |ents|
      invariant forall l :: l in localToId <==> exists j :: 0 <= j < i && ents[j].local == l
      invariant forall l :: l in localToId ==> localToId[l] == EntityId(short, l)
    {
      localToId := localToId[ents[i].local := EntityId(short, ents[i].local)];
    }
    ghost var declared := localToId;
    for i := 0 to |rels|
      invariant forall l :: l in localToId <==>
                  l in declared || (Resolves(es, short, l) && exists j :: 0 <= j < i && (rels[j].src == l || rels[j].dst == l))
      invariant forall l :: l in localToId ==> localToId[l] == EntityId(short, l)
    {
      var src, dst := rels[i].src, rels[i].dst;
      if src !in localToId && Resolves(es, short, src) {
        localToId := localToId[src := EntityId(short, src)];
      }
      if dst !in localToId && Resolves(es, short, dst) {
        localToId := localToId[dst := EntityId(short, dst)];
      }
    }
  }

  method CheckEndpoints(es: map<Handle, EntityRow>, short: string, ents: seq<Record<string>>,
                        rels: seq<Record<string>>, localToId: map<string, Handle>) returns (fine: bool)
    requires forall r :: r in ents ==> r.Entity?
    requires forall r :: r in rels ==> r.Relation?
    requires Table(es, short, ents, rels, localToId)
    ensures fine <==> EndpointsResolve(es, short, rels)
  {
    hide EntityId, Resolves;
    for i := 0 to |rels|
      invariant forall j :: 0 <= j < i ==> Resolves(es, short, rels[j].src) && Resolves(es, short, rels[j].dst)
    {
      assert SourceKnown(ents, rels, rels[i].src) && SourceKnown(ents, rels, rels[i].dst);
      if rels[i].src !in localToId || rels[i].dst !in localToId {
        return false;
      }
    }
    fine := true;
  }

  method CheckSources(es: map<Handle, EntityRow>, short: string, ents: seq<Record<string>>,
                      rels: seq<Record<string>>, srcs: seq<Record<string>>, localToId: map<string, Handle>)
    returns (fine: bool)
    requires forall r :: r in ents ==> r.Entity?
    requires forall r :: r in rels ==> r.Relation?
    requires forall r :: r in srcs ==> r.Source?
    requires Table(es, short, ents, rels, localToId) && EndpointsResolve(es, short, rels)
    requires forall i :: 0 <= i < |ents| ==> Resolves(es, short, ents[i].local)
    ensures fine <==> SourcesKnown(ents, rels, srcs)
  {
    hide EntityId, Resolves;
    for i := 0 to |srcs|
      invariant forall j :: 0 <= j < i ==> SourceKnown(ents, rels, srcs[j].entity)
    {
      if srcs[i].entity !in localToId {
        return false;
      }
    }
    fine := true;
  }

  /** Looks for the first block that is said to contain `local`. */
  method FindBlock(rels: seq<Record<string>>, local: string) returns (block: Option<string>)
    requires forall r :: r in rels ==> r.Relation?
    ensures block == BlockFor(rels, local)
  {
    for i := 0 to |rels|
      invariant BlockFor(rels, local) == BlockFor(rels[i..], local)
    {
      assert rels[i..][0] == rels[i] && rels[i..][1..] == rels[i + 1..];
      if PlacesInBlock(rels[i], local) {
        return Some(rels[i].src);
      }
    }
    block := None;
  }

  method PlaceEntities(es: map<Handle, EntityRow>, short: string, f: Handle, rels: seq<Record<string>>,
                       ents: seq<Record<string>>) returns (m: map<Handle, EntityRow>)
    requires forall r :: r in ents ==> r.Entity? && EntityId(short, r.local) in es
    requires forall x :: x in rels ==> x.Relation?
    ensures m == Placed(es, short, f, rels, ents)
  {
    hide EntityId;
    m := es;
    for i := 0 to |ents|
      invariant m == Placed(es, short, f, rels, ents[..i])
    {
      PrefixStep(ents, i);
      var id := EntityId(short, ents[i].local);
      if ModuleScoped(ents[i].kind) {
        continue;
      }
      var blockId: Option<Handle> := None;
      if ents[i].kind == "instruction" {
        var block := FindBlock(rels, ents[i].local);
        if block.Some? {
          blockId := Some(EntityId(short, block.value));
        }
      }
      assert blockId == BlockIdFor(short, rels, ents[i]);
      assert ents[i] in ents;
      m := m[id := m[id].(functionId := Some(f), blockId := blockId)];
    }
    assert ents[..|ents|] == ents;
  }
}
