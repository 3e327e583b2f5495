/** The parts of a slice around its traversal: choosing the relation kinds and fetching the visited entities. */
module SliceRequest {
  import opened Wrappers
  import Ordering
  import opened Keys
  import Records
  import opened Relations
  import opened Discovery
  import opened Slice
  import opened SliceProperties
  import opened Snapshot
  import opened SnapshotProperties
  import opened Partition

  const SUPPORTED: set<string> := {
    Records.OPERAND, Records.CONTROL_DEPENDENCE, Records.CALLS, Records.SUCCESSOR, Records.CONTAINS, Records.REFERENCES}

  function Unalias(relation: string): string {
    if relation == "operand" then Records.OPERAND
    else if relation == "control" then Records.CONTROL_DEPENDENCE
    else if relation == "call" then Records.CALLS
    else if relation == "cfg" then Records.SUCCESSOR
    else relation
  }

  /** What a slice reports that it does not answer. */
  datatype Unknown = NoFunction | NoDependence

  /** The kinds to traverse, and what is not answered. */
  datatype Selection = Selection(kinds: set<string>, unknowns: seq<Unknown>)

  predicate Asked(relations: seq<string>, kind: string) {
    exists i :: 0 <= i < |relations| && Unalias(relations[i]) == kind
  }

  /**
   * Resolves the requested relations. The first unsupported name is the error. What belongs to no function is
   * reported as out of scope. Control dependence is traversed only when the function's manifest says that it was
   * computed, and otherwise reported as unknown.
   */
  method ChooseKinds(relations: seq<string>, hasFunction: bool, dependenceCompleted: bool)
    returns (r: Result<Selection, string>)
    ensures r.Ok? <==> forall i :: 0 <= i < |relations| ==> Unalias(relations[i]) in SUPPORTED
    ensures r.Err? ==> exists i :: 0 <= i < |relations| && relations[i] == r.error &&
                                   Unalias(relations[i]) !in SUPPORTED &&
                                   forall j :: 0 <= j < i ==> Unalias(relations[j]) in SUPPORTED
    ensures r.Ok? ==> forall k :: k in r.value.kinds <==>
                        Asked(relations, k) && (k == Records.CONTROL_DEPENDENCE ==> hasFunction && dependenceCompleted)
    ensures r.Ok? ==>
              r.value.unknowns ==
              (if hasFunction then [] else [NoFunction]) +
              (if Asked(relations, Records.CONTROL_DEPENDENCE) && !(hasFunction && dependenceCompleted)
               then [NoDependence] else [])
  {
    hide Asked, Unalias;
    var kinds: set<string> := {};
    AskedNothing();
    for i := 0 to |relations|
      invariant forall j :: 0 <= j < i ==> Unalias(relations[j]) in SUPPORTED
      invariant forall k :: k in kinds <==> Asked(relations[..i], k)
    {
      var kind := Unalias(relations[i]);
      if kind !in SUPPORTED {
        return Err(relations[i]);
      }
      AskedOneMore(relations, i);
      kinds := kinds + {kind};
    }
    assert relations[..|relations|] == relations;
    var unknowns := if hasFunction then [] else [NoFunction];
    if Records.CONTROL_DEPENDENCE in kinds && !(hasFunction && dependenceCompleted) {
      kinds := kinds - {Records.CONTROL_DEPENDENCE};
      unknowns := unknowns + [NoDependence];
    }
    r := Ok(Selection(kinds, unknowns));
  }

  lemma AskedNothing()
    ensures forall kind :: !Asked([], kind)
  {
  }

  lemma AskedOneMore(relations: seq<string>, i: nat)
    requires i < |relations|
    ensures forall kind :: Asked(relations[..i + 1], kind) <==> Asked(relations[..i], kind) || kind == Unalias(relations[i])
  {
    hide Unalias;
    var more, fewer := relations[..i + 1], relations[..i];
    forall kind ensures Asked(more, kind) <==> Asked(fewer, kind) || kind == Unalias(relations[i]) {
      assert forall j :: 0 <= j < i ==> more[j] == fewer[j];
      assert more[i] == relations[i];
    }
  }

  /** The short names of four kinds. Every kind has its own name as well. */
  const NAMES: set<(string, string)> := {
    ("operand", "llvm.operand"), ("control", "llvm.control-dependence"), ("call", "llvm.calls"),
    ("cfg", "llvm.cfg-successor")}

  /** A kind is asked for by its own name or by its short one. */
  lemma AskedByEitherName(relations: seq<string>, kind: string)
    requires kind in SUPPORTED
    ensures Asked(relations, kind) <==> kind in relations || exists short :: (short, kind) in NAMES && short in relations
  {
    forall name ensures Unalias(name) == kind <==> name == kind || (name, kind) in NAMES {
      NameOfKind(name, kind);
    }
  }

  lemma NameOfKind(name: string, kind: string)
    requires kind in SUPPORTED
    ensures Unalias(name) == kind <==> name == kind || (name, kind) in NAMES
  {
  }

  const ENTITY_BATCH := 500

  /** The entities of `ids` that exist, in the order of `ids`. */
  function Present<E>(ids: seq<Handle>, table: map<Handle, E>): seq<E> {
    if ids == [] then []
    else
      var init, last := Present(ids[..|ids| - 1], table), ids[|ids| - 1];
      if last in table then init + [table[last]] else init
  }

  /** Fetches the visited entities in batches of bounded size and lists them in visit order. */
  method FetchEntities<E>(seen: seq<Handle>, table: map<Handle, E>) returns (nodes: seq<E>)
    ensures nodes == Present(seen, table)
  {
    var entities: map<Handle, E> := map[];
    var begin := 0;
    while begin < |seen|
      invariant 0 <= begin
      invariant entities == map h | h in table && h in seen[..if begin < |seen| then begin else |seen|] :: table[h]
    {
      var end := if begin + ENTITY_BATCH < |seen| then begin + ENTITY_BATCH else |seen|;
      var batch := map h | h in table && h in seen[begin..end] :: table[h];
      assert forall h :: h in seen[..end] <==> h in seen[..begin] || h in seen[begin..end] by {
        assert seen[..end] == seen[..begin] + seen[begin..end];
      }
      entities := entities + batch;
      begin := begin + ENTITY_BATCH;
    }
    assert seen[..|seen|] == seen;
    nodes := [];
    for i := 0 to |seen|
      invariant nodes == Present(seen[..i], table)
    {
      assert seen[..i + 1][..i] == seen[..i];
      assert seen[i] in seen;
      if seen[i] in entities {
        nodes := nodes + [entities[seen[i]]];
      }
    }
  }

  /** How many of the identifiers exist. */
  function Existing<E>(ids: seq<Handle>, table: map<Handle, E>): nat {
    if ids == [] then 0 else Existing(ids[..|ids| - 1], table) + if ids[|ids| - 1] in table then 1 else 0
  }

  /** Each existing entity stands behind those that exist before it, and nothing else is listed. */
  lemma {:induction false} PresentExact<E>(ids: seq<Handle>, table: map<Handle, E>, i: nat)
    requires i < |ids| && ids[i] in table
    ensures |Present(ids, table)| == Existing(ids, table) && Existing(ids[..i], table) < Existing(ids, table)
    ensures Present(ids, table)[Existing(ids[..i], table)] == table[ids[i]]
  {
    var init := ids[..|ids| - 1];
    PresentCount(init, table);
    if i < |ids| - 1 {
      PresentExact(init, table, i);
      assert init[..i] == ids[..i];
    }
  }

  lemma {:induction false} PresentCount<E>(ids: seq<Handle>, table: map<Handle, E>)
    ensures |Present(ids, table)| == Existing(ids, table)
  {
    if ids != [] {
      PresentCount(ids[..|ids| - 1], table);
    }
  }

  /** What belongs to no function is returned alone, with no rows and no boundaries, under every budget. */
  lemma NoFunctionAlone(rows: seq<Relation>, q: Query, root: Handle, n: int, d: int)
    requires q.functionId == None
    ensures SliceOf(rows, q, root, n, d) == Outcome([root], [], [], None)
  {
    hide SliceOf, Walk, Truncated;
    var o := SliceOf(rows, q, root, n, d);
    SeenBounded(rows, q, root, n, d);
    InducedAndFrontier(rows, q, root, n, d);
    if |o.seen| > 1 {
      SeenInBall(rows, q, root, n, d, o.seen[1]);
      var p :| Walk(q.dir, Neighbours(rows, q), p, root, o.seen[1]);
      StepsSomewhere(q, rows, p, root, o.seen[1]);
    }
    Ordering.SomeElement(o.edges);
    Ordering.SomeElement(o.boundaries);
    NotTruncated(rows, q, root, n, d);
  }

  lemma NotTruncated(rows: seq<Relation>, q: Query, root: Handle, n: int, d: int)
    requires SliceOf(rows, q, root, n, d).boundaries == []
    ensures SliceOf(rows, q, root, n, d).reason == None
  {
    hide SliceOf;
    TruncatedHasReason(rows, q, root, n, d);
  }

  /** A walk to another node begins with a row of the queried function. */
  lemma StepsSomewhere(q: Query, rows: seq<Relation>, p: seq<Handle>, a: Handle, b: Handle)
    requires Walk(q.dir, Neighbours(rows, q), p, a, b) && a != b
    ensures q.functionId.Some?
  {
    assert Step(q.dir, Neighbours(rows, q), p[0], p[1]);
  }

  // ---- Entities loaded beforehand ----------------------------------------------------------------------------

  /** A walk along relation rows stays within one artifact. */
  lemma {:induction false} WalkStaysHome(t: Tables, q: Query, p: seq<Handle>, a: Handle, b: Handle)
    requires Separate(t) && Walk(q.dir, Neighbours(t.relations, q), p, a, b)
    ensures Home(b) == Home(a)
    decreases |p|
  {
    hide Home;
    if |p| > 1 {
      var c := p[|p| - 2];
      assert Step(q.dir, Neighbours(t.relations, q), p[|p| - 2], p[|p| - 1]);
      var e :| e in Adjacent(t.relations, q, c) && Far(q.dir, e) == b;
      assert SeparateRelation(e);
      WalkStaysHome(t, q, p[..|p| - 1], a, c);
    }
  }

  lemma {:induction false} PresentSame<E>(ids: seq<Handle>, a: map<Handle, E>, b: map<Handle, E>)
    requires forall h :: h in ids ==> (h in a <==> h in b) && (h in a ==> a[h] == b[h])
    ensures Present(ids, a) == Present(ids, b)
  {
    if ids != [] {
      PresentSame(ids[..|ids| - 1], a, b);
      assert ids[|ids| - 1] in ids;
    }
  }

  /** The entities of one artifact. */
  function EntitiesIn(es: map<Handle, EntityRow>, short: string): map<Handle, EntityRow> {
    map h | h in es && es[h].short == short :: es[h]
  }

  /** Loading every entity of the target's artifact first lists the same nodes: no walk leaves the artifact. */
  lemma PreloadedEntities(t: Tables, q: Query, root: Handle, n: int, d: int)
    requires Keyed(t.entities) && Separate(t) && root in t.entities
    ensures var seen := SliceOf(t.relations, q, root, n, d).seen;
            Present(seen, EntitiesIn(t.entities, t.entities[root].short)) == Present(seen, t.entities)
  {
    hide SliceOf, Home, Separate, Walk, Present;
    var seen, short := SliceOf(t.relations, q, root, n, d).seen, t.entities[root].short;
    ShortIsHome(t.entities, root);
    forall h | h in seen && h in t.entities ensures t.entities[h].short == short {
      SeenInBall(t.relations, q, root, n, d, h);
      var p :| Walk(q.dir, Neighbours(t.relations, q), p, root, h);
      WalkStaysHome(t, q, p, root, h);
      ShortIsHome(t.entities, h);
    }
    PresentSame(seen, EntitiesIn(t.entities, short), t.entities);
  }

  lemma ShortIsHome(es: map<Handle, EntityRow>, h: Handle)
    requires Keyed(es) && h in es
    ensures Home(h) == es[h].short
  {
    hide Home, EntityId, Scope;
    assert KeyOk(h, es[h]);
    HomeOfId(es[h].short, es[h].local);
  }
}
