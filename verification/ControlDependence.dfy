/**
 * Control dependence from the post-dominator tree: for each edge out of a branch block, walk the tree from the
 * successor up to the branch block's immediate post-dominator.
 */
module ControlDependence {
  import opened Wrappers
  import opened PostDominance

  /** `block` runs or not depending on whether `branch` takes its successor number `ordinal`. */
  datatype Dependence = Dependence(block: nat, branch: nat, ordinal: nat)

  ghost predicate Input(g: Cfg, parent: seq<Point>) {
    WellFormed(g) && AllReachExit(g) && IsTree(g, parent)
  }

  /**
   * Control dependence by paths: the block post-dominates the successor but does not strictly post-dominate the
   * branch block. A block is not reported as depending on itself.
   */
  ghost predicate Depends(g: Cfg, d: Dependence) {
    && d.branch < |g.successors| && d.ordinal < |g.successors[d.branch]|
    && d.block < |g.successors| && d.block != d.branch
    && PostDominates(g, Block(d.block), Block(g.successors[d.branch][d.ordinal]))
    && !Strictly(g, Block(d.block), Block(d.branch))
  }

  /** The parent of a tree node; the virtual exit has none. */
  function Idom(parent: seq<Point>, x: Point): Option<Point>
    requires x.Block? ==> x.index < |parent|
  {
    if x.Exit? then None else Some(parent[x.index])
  }

  /** The runner is a node of the tree, or has left it at the top. */
  predicate OnTree(g: Cfg, runner: Option<Point>) {
    runner.Some? ==> IsPoint(g, runner.value)
  }

  ghost function Remaining(g: Cfg, runner: Option<Point>): nat {
    if runner.None? then 0 else Height(g, runner.value) + 1
  }

  /** The blocks met on the way from `runner` up to `stop`, which is not included. */
  function WalkUp(ghost g: Cfg, parent: seq<Point>, runner: Option<Point>, stop: Option<Point>, branch: nat,
                  ordinal: nat): seq<Dependence>
    requires Input(g, parent) && OnTree(g, runner)
    decreases Remaining(g, runner)
  {
    if runner.None? || runner == stop then []
    else
      if runner.value.Block? then
        ParentLower(g, parent, runner.value.index);
        Met(runner.value, branch, ordinal) + WalkUp(g, parent, Idom(parent, runner.value), stop, branch, ordinal)
      else []
  }

  /** What the walk emits at `y`: nothing at the exit or at the branch block itself. */
  function Met(y: Point, branch: nat, ordinal: nat): seq<Dependence> {
    if y.Block? && y.index != branch then [Dependence(y.index, branch, ordinal)] else []
  }

  /** The dependences of one edge. Nothing is emitted when the successor post-dominates the branch block. */
  function OfEdge(g: Cfg, parent: seq<Point>, branch: nat, ordinal: nat): seq<Dependence>
    requires Input(g, parent) && branch < |g.successors| && ordinal < |g.successors[branch]|
  {
    var next := Block(g.successors[branch][ordinal]);
    if Dominates(g, parent, next, Block(branch)) then []
    else WalkUp(g, parent, Some(next), Idom(parent, Block(branch)), branch, ordinal)
  }

  function OfBlock(g: Cfg, parent: seq<Point>, branch: nat, edges: nat): seq<Dependence>
    requires Input(g, parent) && branch < |g.successors| && edges <= |g.successors[branch]|
  {
    if edges == 0 then []
    else OfBlock(g, parent, branch, edges - 1) + OfEdge(g, parent, branch, edges - 1)
  }

  function OfBlocks(g: Cfg, parent: seq<Point>, blocks: nat): seq<Dependence>
    requires Input(g, parent) && blocks <= |g.successors|
  {
    if blocks == 0 then []
    else OfBlocks(g, parent, blocks - 1) + OfBlock(g, parent, blocks - 1, |g.successors[blocks - 1]|)
  }

  /** All control dependences of a function, in the order they are emitted. */
  function Dependences(g: Cfg, parent: seq<Point>): seq<Dependence>
    requires Input(g, parent)
  {
    OfBlocks(g, parent, |g.successors|)
  }

  lemma WalkStep(g: Cfg, parent: seq<Point>, runner: Option<Point>, stop: Option<Point>, branch: nat, ordinal: nat)
    requires Input(g, parent) && OnTree(g, runner) && runner.Some? && runner != stop
    ensures runner.value.Block? ==> runner.value.index < |parent|
    ensures var up := Idom(parent, runner.value);
            && OnTree(g, up) && Remaining(g, up) < Remaining(g, runner)
            && WalkUp(g, parent, runner, stop, branch, ordinal) ==
               Met(runner.value, branch, ordinal) + WalkUp(g, parent, up, stop, branch, ordinal)
  {
    if runner.value.Block? {
      ParentLower(g, parent, runner.value.index);
    }
  }

  lemma WalkStops(g: Cfg, parent: seq<Point>, runner: Option<Point>, stop: Option<Point>, branch: nat, ordinal: nat)
    requires Input(g, parent) && OnTree(g, runner) && (runner.None? || runner == stop)
    ensures WalkUp(g, parent, runner, stop, branch, ordinal) == []
  {
  }

  lemma BranchPoints(g: Cfg, parent: seq<Point>, branch: nat, ordinal: nat)
    requires Input(g, parent) && branch < |g.successors| && ordinal < |g.successors[branch]|
    ensures branch < |parent| && OnTree(g, Some(Block(g.successors[branch][ordinal])))
    ensures IsPoint(g, Block(branch)) && IsTree(g, parent) && AllReachExit(g)
  {
  }

  lemma BlocksStart(g: Cfg, parent: seq<Point>)
    requires Input(g, parent)
    ensures OfBlocks(g, parent, 0) == [] && Dependences(g, parent) == OfBlocks(g, parent, |g.successors|)
  {
    hide Input;
  }

  lemma BlocksStep(g: Cfg, parent: seq<Point>, b: nat)
    requires Input(g, parent) && b < |g.successors|
    ensures b < |parent|
    ensures OfBlocks(g, parent, b + 1) == OfBlocks(g, parent, b) + OfBlock(g, parent, b, |g.successors[b]|)
  {
    hide OfBlock, Dominates, WalkUp;
  }

  method EmitDependences(g: Cfg, parent: seq<Point>) returns (out: seq<Dependence>)
    requires Input(g, parent)
    ensures out == Dependences(g, parent)
  {
    hide *;
    out := [];
    BlocksStart(g, parent);
    for b := 0 to |g.successors|
      invariant out == OfBlocks(g, parent, b)
    {
      BlocksStep(g, parent, b);
      out := EmitBlock(g, parent, b, out);
    }
  }

  lemma EdgeStep(g: Cfg, parent: seq<Point>, b: nat, s: nat)
    requires Input(g, parent) && b < |g.successors| && s < |g.successors[b]|
    ensures var next := Block(g.successors[b][s]);
            OfEdge(g, parent, b, s) ==
            if Dominates(g, parent, next, Block(b)) then [] else WalkUp(g, parent, Some(next), Some(parent[b]), b, s)
    ensures OfBlock(g, parent, b, s + 1) == OfBlock(g, parent, b, s) + OfEdge(g, parent, b, s)
  {
    hide Dominates, WalkUp, Strictly;
  }

  /** The edges out of one block. */
  method EmitBlock(g: Cfg, parent: seq<Point>, b: nat, earlier: seq<Dependence>) returns (out: seq<Dependence>)
    requires Input(g, parent) && b < |g.successors| && b < |parent|
    ensures out == earlier + OfBlock(g, parent, b, |g.successors[b]|)
  {
    hide *;
    var stop := Some(parent[b]);
    out := earlier;
    NoEdgeStep(g, parent, b);
    for s := 0 to |g.successors[b]|
      invariant out == earlier + OfBlock(g, parent, b, s)
    {
      var next := Block(g.successors[b][s]);
      BranchPoints(g, parent, b, s);
      EdgeStep(g, parent, b, s);
      assert earlier + OfBlock(g, parent, b, s) + OfEdge(g, parent, b, s) ==
             earlier + (OfBlock(g, parent, b, s) + OfEdge(g, parent, b, s));
      if !Dominates(g, parent, next, Block(b)) {
        out := EmitArm(g, parent, b, s, stop, out);
      }
    }
  }

  lemma NoEdgeStep(g: Cfg, parent: seq<Point>, b: nat)
    requires Input(g, parent) && b < |g.successors|
    ensures OfBlock(g, parent, b, 0) == []
  {
  }

  /** The walk from one successor up to the stop node. */
  method EmitArm(g: Cfg, parent: seq<Point>, b: nat, s: nat, stop: Option<Point>, earlier: seq<Dependence>)
    returns (out: seq<Dependence>)
    requires Input(g, parent) && b < |g.successors| && s < |g.successors[b]|
    ensures out == earlier + WalkUp(g, parent, Some(Block(g.successors[b][s])), stop, b, s)
  {
    hide *;
    out := earlier;
    var runner := Some(Block(g.successors[b][s]));
    BranchPoints(g, parent, b, s);
    while runner.Some? && runner != stop
      invariant OnTree(g, runner)
      invariant out + WalkUp(g, parent, runner, stop, b, s) ==
                earlier + WalkUp(g, parent, Some(Block(g.successors[b][s])), stop, b, s)
      decreases Remaining(g, runner)
    {
      var y := runner.value;
      WalkStep(g, parent, runner, stop, b, s);
      ghost var before, rest := out, WalkUp(g, parent, Idom(parent, y), stop, b, s);
      if y.Block? && y.index != b {
        out := out + [Dependence(y.index, b, s)];
      }
      assert out == before + Met(y, b, s) by {
        MetCases(y, b, s);
      }
      assert before + Met(y, b, s) + rest == before + (Met(y, b, s) + rest);
      runner := Idom(parent, y);
    }
    WalkStops(g, parent, runner, stop, b, s);
    assert out + [] == out;
  }

  lemma MetCases(y: Point, branch: nat, ordinal: nat)
    ensures Met(y, branch, ordinal) ==
            if y.Block? && y.index != branch then [Dependence(y.index, branch, ordinal)] else []
  {
  }

  // ---- Exactness ---------------------------------------------------------------------------------------------

  /** The walk always reaches its stop node: it is the successor itself or one of its ancestors. */
  lemma StopIsAncestor(g: Cfg, parent: seq<Point>, branch: nat, ordinal: nat)
    requires Input(g, parent) && branch < |g.successors| && ordinal < |g.successors[branch]|
    ensures Dominates(g, parent, parent[branch], Block(g.successors[branch][ordinal]))
  {
    var next := Block(g.successors[branch][ordinal]);
    assert Edge(g, Block(branch), next);
    StrictOfSuccessor(g, parent[branch], Block(branch), next);
    DominatesIsPostDominates(g, parent, parent[branch], next);
  }

  /** On the way from `x` up to `stop` the walk meets exactly the post-dominators of `x` below `stop`. */
  lemma {:induction false} WalkExact(g: Cfg, parent: seq<Point>, x: Point, stop: Point, branch: nat, ordinal: nat,
                                     d: Dependence)
    requires Input(g, parent) && IsPoint(g, x) && PostDominates(g, stop, x)
    ensures d in WalkUp(g, parent, Some(x), Some(stop), branch, ordinal) <==>
            && d.branch == branch && d.ordinal == ordinal && d.block != branch && d.block < |g.successors|
            && PostDominates(g, Block(d.block), x) && Strictly(g, stop, Block(d.block))
    decreases Height(g, x)
  {
    PointReachesExit(g, x);
    if x == stop {
      if PostDominates(g, Block(d.block), x) && Strictly(g, stop, Block(d.block)) {
        Antisymmetric(g, x, Block(d.block));
      }
    } else if x.Exit? {
      OnlyExitPostDominatesExit(g, stop);
    } else {
      ParentLower(g, parent, x.index);
      WalkExact(g, parent, parent[x.index], stop, branch, ordinal, d);
      if PostDominates(g, Block(d.block), parent[x.index]) {
        Transitive(g, Block(d.block), parent[x.index], x);
      }
    }
  }

  /** A post-dominator of the successor lies below the stop node just when it does not strictly post-dominate the branch. */
  lemma BelowStop(g: Cfg, parent: seq<Point>, branch: nat, ordinal: nat, y: Point)
    requires Input(g, parent) && branch < |g.successors| && ordinal < |g.successors[branch]|
    requires PostDominates(g, y, Block(g.successors[branch][ordinal]))
    ensures Strictly(g, parent[branch], y) <==> !Strictly(g, y, Block(branch))
  {
    var next, stop, x := Block(g.successors[branch][ordinal]), parent[branch], Block(branch);
    PointReachesExit(g, next);
    PointReachesExit(g, stop);
    PointReachesExit(g, x);
    assert Edge(g, x, next);
    StrictOfSuccessor(g, stop, x, next);
    Chain(g, y, stop, next);
    if PostDominates(g, y, stop) {
      Transitive(g, y, stop, x);
      if PostDominates(g, stop, y) {
        Antisymmetric(g, stop, y);
      }
      if y == x {
        Antisymmetric(g, x, stop);
      }
    }
  }

  /** One edge emits exactly its control dependences. */
  lemma EdgeExact(g: Cfg, parent: seq<Point>, branch: nat, ordinal: nat, d: Dependence)
    requires Input(g, parent) && branch < |g.successors| && ordinal < |g.successors[branch]|
    ensures d in OfEdge(g, parent, branch, ordinal) <==> d.branch == branch && d.ordinal == ordinal && Depends(g, d)
  {
    var next, x := Block(g.successors[branch][ordinal]), Block(branch);
    DominatesIsPostDominates(g, parent, next, x);
    if PostDominates(g, next, x) {
      if PostDominates(g, Block(d.block), next) {
        Transitive(g, Block(d.block), next, x);
      }
    } else {
      StopIsAncestor(g, parent, branch, ordinal);
      DominatesIsPostDominates(g, parent, parent[branch], next);
      WalkExact(g, parent, next, parent[branch], branch, ordinal, d);
      if PostDominates(g, Block(d.block), next) {
        BelowStop(g, parent, branch, ordinal, Block(d.block));
      }
    }
  }

  lemma {:induction false} BlockExact(g: Cfg, parent: seq<Point>, branch: nat, edges: nat, d: Dependence)
    requires Input(g, parent) && branch < |g.successors| && edges <= |g.successors[branch]|
    ensures d in OfBlock(g, parent, branch, edges) <==> d.branch == branch && d.ordinal < edges && Depends(g, d)
  {
    hide Depends, OfEdge, Input, WellFormed, AllReachExit, IsTree;
    if edges > 0 {
      BlockExact(g, parent, branch, edges - 1, d);
      EdgeExact(g, parent, branch, edges - 1, d);
    }
  }

  lemma {:induction false} BlocksExact(g: Cfg, parent: seq<Point>, blocks: nat, d: Dependence)
    requires Input(g, parent) && blocks <= |g.successors|
    ensures d in OfBlocks(g, parent, blocks) <==> d.branch < blocks && Depends(g, d)
  {
    hide OfBlock, Input, PostDominates, Strictly;
    if blocks > 0 {
      BlocksExact(g, parent, blocks - 1, d);
      BlockExact(g, parent, blocks - 1, |g.successors[blocks - 1]|, d);
    }
  }

  predicate NoRepeats<T(==)>(s: seq<T>) {
    forall i, j :: 0 <= i < j < |s| ==> s[i] != s[j]
  }

  lemma NoRepeatsEmpty<T>()
    ensures NoRepeats<T>([])
  {
  }

  lemma NoRepeatsJoin<T>(a: seq<T>, b: seq<T>)
    requires NoRepeats(a) && NoRepeats(b)
    requires forall x :: x in a ==> x !in b
    ensures NoRepeats(a + b)
  {
    var s := a + b;
    forall i, j | 0 <= i < j < |s| ensures s[i] != s[j] {
      if i < |a| <= j {
        assert s[i] in a && s[j] in b;
      }
    }
  }

  lemma {:induction false} WalkOnce(g: Cfg, parent: seq<Point>, x: Point, stop: Point, branch: nat, ordinal: nat)
    requires Input(g, parent) && IsPoint(g, x) && PostDominates(g, stop, x)
    ensures NoRepeats(WalkUp(g, parent, Some(x), Some(stop), branch, ordinal))
    decreases Height(g, x)
  {
    if x != stop && x.Block? {
      var up := parent[x.index];
      ParentLower(g, parent, x.index);
      WalkOnce(g, parent, up, stop, branch, ordinal);
      forall d | d in Met(x, branch, ordinal) ensures d !in WalkUp(g, parent, Some(up), Some(stop), branch, ordinal) {
        WalkExact(g, parent, up, stop, branch, ordinal, d);
        if PostDominates(g, x, up) {
          PointReachesExit(g, x);
          Antisymmetric(g, x, up);
        }
      }
      NoRepeatsJoin(Met(x, branch, ordinal), WalkUp(g, parent, Some(up), Some(stop), branch, ordinal));
    }
  }

  lemma EdgeOnce(g: Cfg, parent: seq<Point>, branch: nat, ordinal: nat)
    requires Input(g, parent) && branch < |g.successors| && ordinal < |g.successors[branch]|
    ensures NoRepeats(OfEdge(g, parent, branch, ordinal))
  {
    var next := Block(g.successors[branch][ordinal]);
    StopIsAncestor(g, parent, branch, ordinal);
    DominatesIsPostDominates(g, parent, parent[branch], next);
    WalkOnce(g, parent, next, parent[branch], branch, ordinal);
  }

  lemma {:induction false} BlockOnce(g: Cfg, parent: seq<Point>, branch: nat, edges: nat)
    requires Input(g, parent) && branch < |g.successors| && edges <= |g.successors[branch]|
    ensures NoRepeats(OfBlock(g, parent, branch, edges))
  {
    hide Depends, OfEdge, NoRepeats, Input, WellFormed, AllReachExit, IsTree;
    if edges == 0 {
      NoRepeatsEmpty<Dependence>();
    } else {
      var s := edges - 1;
      BlockOnce(g, parent, branch, s);
      EdgeOnce(g, parent, branch, s);
      forall d | d in OfBlock(g, parent, branch, s) ensures d !in OfEdge(g, parent, branch, s) {
        BlockExact(g, parent, branch, s, d);
        EdgeExact(g, parent, branch, s, d);
      }
      NoRepeatsJoin(OfBlock(g, parent, branch, s), OfEdge(g, parent, branch, s));
    }
  }

  lemma {:induction false} BlocksOnce(g: Cfg, parent: seq<Point>, blocks: nat)
    requires Input(g, parent) && blocks <= |g.successors|
    ensures NoRepeats(OfBlocks(g, parent, blocks))
  {
    hide Depends, OfBlock, NoRepeats, Input, WellFormed, AllReachExit, IsTree;
    if blocks == 0 {
      NoRepeatsEmpty<Dependence>();
    } else {
      var b := blocks - 1;
      BlocksOnce(g, parent, b);
      BlockOnce(g, parent, b, |g.successors[b]|);
      forall d | d in OfBlocks(g, parent, b) ensures d !in OfBlock(g, parent, b, |g.successors[b]|) {
        BlocksExact(g, parent, b, d);
        BlockExact(g, parent, b, |g.successors[b]|, d);
      }
      NoRepeatsJoin(OfBlocks(g, parent, b), OfBlock(g, parent, b, |g.successors[b]|));
    }
  }

  /** Every control dependence is emitted, nothing else is, and none is emitted twice. */
  lemma DependencesExact(g: Cfg, parent: seq<Point>)
    requires Input(g, parent)
    ensures forall d :: d in Dependences(g, parent) <==> Depends(g, d)
    ensures NoRepeats(Dependences(g, parent))
  {
    forall d ensures d in Dependences(g, parent) <==> Depends(g, d) {
      BlocksExact(g, parent, |g.successors|, d);
    }
    BlocksOnce(g, parent, |g.successors|);
  }
}
