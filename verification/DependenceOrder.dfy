/** The order in which control dependences are emitted. */
module DependenceOrder {
  import opened Wrappers
  import opened PostDominance
  import opened ControlDependence

  /** By branch, by edge, and along the walk: what comes later post-dominates what comes first. */
  ghost predicate Before(g: Cfg, a: Dependence, b: Dependence) {
    || a.branch < b.branch
    || (a.branch == b.branch && a.ordinal < b.ordinal)
    || (a.branch == b.branch && a.ordinal == b.ordinal && PostDominates(g, Block(b.block), Block(a.block)))
  }

  ghost predicate InOrder(g: Cfg, ds: seq<Dependence>) {
    forall i, j :: 0 <= i < j < |ds| ==> Before(g, ds[i], ds[j])
  }

  lemma InOrderJoin(g: Cfg, a: seq<Dependence>, b: seq<Dependence>)
    requires InOrder(g, a) && InOrder(g, b) && forall x, y :: x in a && y in b ==> Before(g, x, y)
    ensures InOrder(g, a + b)
  {
    hide Before;
    var s := a + b;
    forall i, j | 0 <= i < j < |s| ensures Before(g, s[i], s[j]) {
      if i < |a| <= j {
        assert s[i] in a && s[j] in b;
      }
    }
  }

  lemma {:induction false} WalkInOrder(g: Cfg, parent: seq<Point>, x: Point, stop: Point, branch: nat, ordinal: nat)
    requires Input(g, parent) && IsPoint(g, x) && PostDominates(g, stop, x)
    ensures InOrder(g, WalkUp(g, parent, Some(x), Some(stop), branch, ordinal))
    decreases Height(g, x)
  {
    if x != stop && x.Block? {
      var up := parent[x.index];
      ParentLower(g, parent, x.index);
      WalkInOrder(g, parent, up, stop, branch, ordinal);
      var rest := WalkUp(g, parent, Some(up), Some(stop), branch, ordinal);
      forall a, b | a in Met(x, branch, ordinal) && b in rest ensures Before(g, a, b) {
        WalkExact(g, parent, up, stop, branch, ordinal, b);
        Transitive(g, Block(b.block), up, x);
      }
      InOrderJoin(g, Met(x, branch, ordinal), rest);
    }
  }

  lemma EdgeInOrder(g: Cfg, parent: seq<Point>, branch: nat, ordinal: nat)
    requires Input(g, parent) && branch < |g.successors| && ordinal < |g.successors[branch]|
    ensures InOrder(g, OfEdge(g, parent, branch, ordinal))
  {
    var next := Block(g.successors[branch][ordinal]);
    StopIsAncestor(g, parent, branch, ordinal);
    DominatesIsPostDominates(g, parent, parent[branch], next);
    WalkInOrder(g, parent, next, parent[branch], branch, ordinal);
  }

  lemma NothingInOrder(g: Cfg)
    ensures InOrder(g, [])
  {
  }

  lemma {:induction false} BlockInOrder(g: Cfg, parent: seq<Point>, branch: nat, edges: nat)
    requires Input(g, parent) && branch < |g.successors| && edges <= |g.successors[branch]|
    ensures InOrder(g, OfBlock(g, parent, branch, edges))
  {
    hide Depends, OfEdge, InOrder, Input, PostDominance.WellFormed, AllReachExit, IsTree;
    if edges == 0 {
      NothingInOrder(g);
    } else {
      var s := edges - 1;
      BlockInOrder(g, parent, branch, s);
      EdgeInOrder(g, parent, branch, s);
      forall a, b | a in OfBlock(g, parent, branch, s) && b in OfEdge(g, parent, branch, s) ensures Before(g, a, b) {
        BlockExact(g, parent, branch, s, a);
        EdgeExact(g, parent, branch, s, b);
      }
      InOrderJoin(g, OfBlock(g, parent, branch, s), OfEdge(g, parent, branch, s));
    }
  }

  lemma {:induction false} BlocksInOrder(g: Cfg, parent: seq<Point>, blocks: nat)
    requires Input(g, parent) && blocks <= |g.successors|
    ensures InOrder(g, OfBlocks(g, parent, blocks))
  {
    hide Depends, OfBlock, InOrder, Input, PostDominance.WellFormed, AllReachExit, IsTree;
    if blocks == 0 {
      NothingInOrder(g);
    } else {
      var b := blocks - 1;
      BlocksInOrder(g, parent, b);
      BlockInOrder(g, parent, b, |g.successors[b]|);
      forall x, y | x in OfBlocks(g, parent, b) && y in OfBlock(g, parent, b, |g.successors[b]|) ensures Before(g, x, y) {
        BlocksExact(g, parent, b, x);
        BlockExact(g, parent, b, |g.successors[b]|, y);
      }
      InOrderJoin(g, OfBlocks(g, parent, b), OfBlock(g, parent, b, |g.successors[b]|));
    }
  }

  /** Dependences are emitted branch by branch, edge by edge, and from the successor up. */
  lemma DependencesInOrder(g: Cfg, parent: seq<Point>)
    requires Input(g, parent)
    ensures InOrder(g, Dependences(g, parent))
  {
    hide InOrder, Input, OfBlocks;
    BlocksInOrder(g, parent, |g.successors|);
  }
}
