/**
 * Control-flow graphs and post-dominance by paths. The graph is augmented with a virtual exit that the blocks in
 * `roots` lead to: blocks without successors, and one block of each loop that never ends.
 */
module PostDominance {
  datatype Point = Exit | Block(index: nat)

  datatype Cfg = Cfg(successors: seq<seq<nat>>, roots: set<nat>)

  predicate WellFormed(g: Cfg) {
    forall b, s :: 0 <= b < |g.successors| && 0 <= s < |g.successors[b]| ==> g.successors[b][s] < |g.successors|
  }

  predicate IsPoint(g: Cfg, x: Point) {
    x.Exit? || x.index < |g.successors|
  }

  predicate Edge(g: Cfg, a: Point, b: Point) {
    && a.Block? && a.index < |g.successors|
    && (match b
        case Exit => a.index in g.roots
        case Block(i) => i in g.successors[a.index])
  }

  /** `p` leads from `x` to the virtual exit. */
  predicate ExitPath(g: Cfg, p: seq<Point>, x: Point) {
    && |p| > 0 && p[0] == x && p[|p| - 1] == Exit
    && forall i :: 0 <= i < |p| - 1 ==> Edge(g, p[i], p[i + 1])
  }

  ghost predicate ReachesExit(g: Cfg, x: Point) {
    exists p :: ExitPath(g, p, x)
  }

  ghost predicate AllReachExit(g: Cfg) {
    forall b :: 0 <= b < |g.successors| ==> ReachesExit(g, Block(b))
  }

  /** Every path from `x` to the exit passes through `y`. */
  ghost predicate PostDominates(g: Cfg, y: Point, x: Point) {
    forall p :: ExitPath(g, p, x) ==> y in p
  }

  ghost predicate Strictly(g: Cfg, y: Point, x: Point) {
    y != x && PostDominates(g, y, x)
  }

  lemma PointReachesExit(g: Cfg, x: Point)
    requires AllReachExit(g) && IsPoint(g, x)
    ensures ReachesExit(g, x)
  {
    if x.Exit? {
      assert ExitPath(g, [Exit], Exit);
    } else {
      assert ReachesExit(g, Block(x.index));
    }
  }

  lemma SuffixPath(g: Cfg, p: seq<Point>, x: Point, i: nat)
    requires ExitPath(g, p, x) && i < |p|
    ensures ExitPath(g, p[i..], p[i])
  {
    forall j | 0 <= j < |p[i..]| - 1 ensures Edge(g, p[i..][j], p[i..][j + 1]) {
      assert Edge(g, p[i + j], p[i + j + 1]);
    }
  }

  lemma JoinPath(g: Cfg, p: seq<Point>, x: Point, i: nat, r: seq<Point>)
    requires ExitPath(g, p, x) && i < |p| && ExitPath(g, r, p[i])
    ensures ExitPath(g, p[..i] + r, x)
  {
    var j := p[..i] + r;
    forall k | 0 <= k < |j| - 1 ensures Edge(g, j[k], j[k + 1]) {
      if k < i {
        assert Edge(g, p[k], p[k + 1]);
        assert j[k + 1] == p[k + 1];
      } else {
        assert Edge(g, r[k - i], r[k - i + 1]);
      }
    }
  }

  lemma StepPath(g: Cfg, a: Point, b: Point, p: seq<Point>)
    requires Edge(g, a, b) && ExitPath(g, p, b)
    ensures ExitPath(g, [a] + p, a)
  {
    var j := [a] + p;
    forall k | 0 <= k < |j| - 1 ensures Edge(g, j[k], j[k + 1]) {
      if k > 0 {
        assert Edge(g, p[k - 1], p[k - 1 + 1]);
      }
    }
  }

  lemma OnlyExitPostDominatesExit(g: Cfg, y: Point)
    requires PostDominates(g, y, Exit)
    ensures y == Exit
  {
    assert ExitPath(g, [Exit], Exit);
  }

  lemma Transitive(g: Cfg, a: Point, b: Point, c: Point)
    requires PostDominates(g, a, b) && PostDominates(g, b, c)
    ensures PostDominates(g, a, c)
  {
    forall p | ExitPath(g, p, c) ensures a in p {
      var i :| 0 <= i < |p| && p[i] == b;
      SuffixPath(g, p, c, i);
      assert a in p[i..];
    }
  }

  /** Two different points that post-dominate each other cannot reach the exit: each visit forces another. */
  lemma {:induction false} MutualTrap(g: Cfg, a: Point, b: Point, p: seq<Point>)
    requires a != b && PostDominates(g, a, b) && PostDominates(g, b, a)
    ensures !ExitPath(g, p, a)
    decreases |p|
  {
    if ExitPath(g, p, a) {
      var i :| 0 <= i < |p| && p[i] == b;
      SuffixPath(g, p, a, i);
      MutualTrap(g, b, a, p[i..]);
    }
  }

  lemma Antisymmetric(g: Cfg, a: Point, b: Point)
    requires ReachesExit(g, a)
    requires PostDominates(g, a, b) && PostDominates(g, b, a)
    ensures a == b
  {
    var p :| ExitPath(g, p, a);
    if a != b {
      MutualTrap(g, a, b, p);
    }
  }

  lemma {:induction false} FirstMeeting(p: seq<Point>, a: Point, b: Point) returns (i: nat)
    requires a in p
    ensures i < |p| && (p[i] == a || p[i] == b)
    ensures a !in p[..i] && b !in p[..i]
    decreases |p|
  {
    if p[0] == a || p[0] == b {
      i := 0;
    } else {
      var j := FirstMeeting(p[1..], a, b);
      i := j + 1;
      assert p[..i] == [p[0]] + p[1..][..j];
    }
  }

  /** A path from `b` that avoids `a`, and one from `a` that avoids `b`, leave no point post-dominated by both. */
  lemma Detour(g: Cfg, a: Point, b: Point, x: Point, p: seq<Point>, q: seq<Point>, r: seq<Point>)
    requires ExitPath(g, p, x)
    requires ExitPath(g, q, b) && a !in q
    requires ExitPath(g, r, a) && b !in r
    ensures !PostDominates(g, a, x) || !PostDominates(g, b, x)
  {
    if a in p {
      var i := FirstMeeting(p, a, b);
      if p[i] == a {
        JoinPath(g, p, x, i, r);
        assert b !in p[..i] + r;
      } else {
        JoinPath(g, p, x, i, q);
        assert a !in p[..i] + q;
      }
    }
  }

  /** The post-dominators of a point form a chain. */
  lemma Chain(g: Cfg, a: Point, b: Point, x: Point)
    requires ReachesExit(g, x)
    requires PostDominates(g, a, x) && PostDominates(g, b, x)
    ensures PostDominates(g, a, b) || PostDominates(g, b, a)
  {
    var p :| ExitPath(g, p, x);
    forall q, r | ExitPath(g, q, b) && a !in q && ExitPath(g, r, a) ensures b in r {
      if b !in r {
        Detour(g, a, b, x, p, q, r);
      }
    }
  }

  /** A strict post-dominator of a block post-dominates each of its successors. */
  lemma StrictOfSuccessor(g: Cfg, y: Point, x: Point, next: Point)
    requires Strictly(g, y, x) && Edge(g, x, next)
    ensures PostDominates(g, y, next)
  {
    forall p | ExitPath(g, p, next) ensures y in p {
      StepPath(g, x, next, p);
      assert y in [x] + p;
    }
  }

  // ---- The tree ----------------------------------------------------------------------------------------------

  /**
   * The post-dominator tree as its builder hands it over: the parent of a block is its immediate post-dominator,
   * the strict post-dominator that every other strict post-dominator post-dominates.
   */
  ghost predicate IsTree(g: Cfg, parent: seq<Point>) {
    && |parent| == |g.successors|
    && forall b :: 0 <= b < |parent| ==>
         && IsPoint(g, parent[b])
         && Strictly(g, parent[b], Block(b))
         && forall y :: Strictly(g, y, Block(b)) ==> PostDominates(g, y, parent[b])
  }

  function Points(g: Cfg): set<Point> {
    {Exit} + set b | 0 <= b < |g.successors| :: Block(b)
  }

  /** How many points strictly post-dominate `x`: its depth in the tree. */
  ghost function Height(g: Cfg, x: Point): nat {
    |set y | y in Points(g) && Strictly(g, y, x)|
  }

  lemma SmallerSet<T>(a: set<T>, b: set<T>, x: T)
    requires a <= b && x in b && x !in a
    ensures |a| < |b|
  {
    assert b == a + (b - a);
    assert x in b - a;
  }

  lemma ParentLower(g: Cfg, parent: seq<Point>, b: nat)
    requires IsTree(g, parent) && AllReachExit(g) && b < |parent|
    ensures Height(g, parent[b]) < Height(g, Block(b))
  {
    var lower := set y | y in Points(g) && Strictly(g, y, parent[b]);
    var upper := set y | y in Points(g) && Strictly(g, y, Block(b));
    forall y | y in lower ensures y in upper {
      Transitive(g, y, parent[b], Block(b));
      if y == Block(b) {
        PointReachesExit(g, Block(b));
        Antisymmetric(g, Block(b), parent[b]);
      }
    }
    assert parent[b] in upper;
    SmallerSet(lower, upper, parent[b]);
  }

  /** The tree query: `y` is `x` or one of its ancestors. */
  predicate Dominates(ghost g: Cfg, parent: seq<Point>, y: Point, x: Point)
    requires IsTree(g, parent) && AllReachExit(g) && IsPoint(g, x)
    decreases Height(g, x)
  {
    if y == x then true
    else if x.Exit? then false
    else
      ParentLower(g, parent, x.index);
      Dominates(g, parent, y, parent[x.index])
  }

  /** The ancestors of a point in the tree are exactly its post-dominators. */
  lemma {:induction false} DominatesIsPostDominates(g: Cfg, parent: seq<Point>, y: Point, x: Point)
    requires IsTree(g, parent) && AllReachExit(g) && IsPoint(g, x)
    ensures Dominates(g, parent, y, x) <==> PostDominates(g, y, x)
    decreases Height(g, x)
  {
    if y == x {
    } else if x.Exit? {
      if PostDominates(g, y, x) {
        OnlyExitPostDominatesExit(g, y);
      }
    } else {
      ParentLower(g, parent, x.index);
      DominatesIsPostDominates(g, parent, y, parent[x.index]);
      if PostDominates(g, y, parent[x.index]) {
        Transitive(g, y, parent[x.index], x);
      }
    }
  }
}
