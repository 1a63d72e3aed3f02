/** Natural loops by paths: how the bodies of two loops can overlap, and what
    nesting depth counts (analysis/loop.go, analysis/loopforest.go). */
module LoopTheory {
  import opened Graphs
  import opened DomTrees

  /** The back edges of one header: each latch is reachable, dominated by the header
      and branches to it. */
  ghost predicate IsLoop(g: Graph, s: nat, h: nat, ls: seq<nat>) {
    forall l :: l in ls ==> Edge(g, l, h) && Reach(g, s, l) && PathDom(g, s, h, l)
  }

  ghost predicate AvoidsTo(g: Graph, h: nat, b: nat, l: nat) {
    exists q :: IsPathFromTo(g, q, b, l) && h !in q
  }

  /** b is the header, or reaches a latch without passing through the header. */
  ghost predicate InLoop(g: Graph, h: nat, ls: seq<nat>, b: nat) {
    b == h || exists l :: l in ls && AvoidsTo(g, h, b, l)
  }

  lemma AvoidsJoin(g: Graph, h: nat, a: nat, b: nat, c: nat)
    requires AvoidsTo(g, h, a, b) && AvoidsTo(g, h, b, c)
    ensures AvoidsTo(g, h, a, c)
  {
    var p :| IsPathFromTo(g, p, a, b) && h !in p;
    var q :| IsPathFromTo(g, q, b, c) && h !in q;
    PathJoin(g, p, q, a, b, c);
    assert h !in p + q[1..];
  }

  lemma AvoidsStep(g: Graph, h: nat, a: nat, b: nat, c: nat)
    requires Edge(g, a, b) && a != h && AvoidsTo(g, h, b, c)
    ensures AvoidsTo(g, h, a, c)
  {
    var q :| IsPathFromTo(g, q, b, c) && h !in q;
    PathPrepend(g, q, a, b, c);
    assert h !in [a] + q;
  }

  lemma NotDominatedAvoids(g: Graph, s: nat, h: nat, b: nat)
    ensures !PathDom(g, s, h, b) <==> AvoidsTo(g, h, s, b)
  {
  }

  /** A header dominates the reachable part of its body. */
  lemma HeaderDominatesBody(g: Graph, s: nat, h: nat, ls: seq<nat>, b: nat)
    requires IsLoop(g, s, h, ls) && InLoop(g, h, ls, b)
    ensures PathDom(g, s, h, b)
  {
    if b == h {
      PathDomRefl(g, s, h);
    } else {
      var l :| l in ls && AvoidsTo(g, h, b, l);
      NotDominatedAvoids(g, s, h, b);
      if !PathDom(g, s, h, b) {
        AvoidsJoin(g, h, s, b, l);
        NotDominatedAvoids(g, s, h, l);
      }
    }
  }

  lemma {:induction false} LastOccurrence(p: seq<nat>, h: nat) returns (k: nat)
    requires h in p
    ensures k < |p| && p[k] == h && h !in p[k + 1..]
  {
    if p[|p| - 1] == h {
      k := |p| - 1;
    } else {
      k := LastOccurrence(p[..|p| - 1], h);
      assert p[k + 1..] == p[..|p| - 1][k + 1..] + [p[|p| - 1]];
    }
  }

  /** Two different reachable blocks do not dominate each other. */
  lemma {:induction false} DomAntisymmetric(g: Graph, s: nat, a: nat, b: nat, p: seq<nat>)
    requires PathDom(g, s, a, b) && PathDom(g, s, b, a) && IsPathFromTo(g, p, s, a)
    ensures a == b
    decreases |p|
  {
    if a != b {
      var k :| 0 <= k < |p| && p[k] == b;
      PathPrefix(g, p, k);
      DomAntisymmetric(g, s, b, a, p[..k + 1]);
    }
  }

  lemma DomDiffers(g: Graph, s: nat, a: nat, b: nat)
    requires PathDom(g, s, a, b) && a != b && Reach(g, s, b)
    ensures AvoidsTo(g, b, s, a)
  {
    NotDominatedAvoids(g, s, b, a);
    if PathDom(g, s, b, a) {
      var p :| IsPathFromTo(g, p, s, b);
      DomAntisymmetric(g, s, b, a, p);
    }
  }

  /** The dominators of a reachable block are ordered by dominance. */
  lemma DominatorsOrdered(g: Graph, s: nat, a: nat, b: nat, x: nat)
    requires PathDom(g, s, a, x) && PathDom(g, s, b, x) && Reach(g, s, x)
    ensures PathDom(g, s, a, b) || PathDom(g, s, b, a)
  {
    if !PathDom(g, s, a, b) && !PathDom(g, s, b, a) {
      var p :| IsPathFromTo(g, p, s, x);
      var i := LastOccurrence(p, a);
      var j := LastOccurrence(p, b);
      if i < j {
        CutAfter(g, s, a, b, x, p, j);
      } else {
        CutAfter(g, s, b, a, x, p, i);
      }
    }
  }

  /** If b can be reached avoiding a, then a is on every walk from b to a block it dominates. */
  lemma CutAfter(g: Graph, s: nat, a: nat, b: nat, x: nat, p: seq<nat>, j: nat)
    requires PathDom(g, s, a, x) && !PathDom(g, s, a, b)
    requires IsPathFromTo(g, p, s, x) && j < |p| && p[j] == b
    ensures a in p[j..]
  {
    PathSuffix(g, p, j);
    if a !in p[j..] {
      assert AvoidsTo(g, a, b, x);
      NotDominatedAvoids(g, s, a, b);
      AvoidsJoin(g, a, s, b, x);
      NotDominatedAvoids(g, s, a, x);
    }
  }

  /** A loop whose header is strictly dominated by another's, and which shares a
      reachable block with it, has its header inside it. */
  lemma HeaderInside(g: Graph, s: nat, h1: nat, ls1: seq<nat>, h2: nat, ls2: seq<nat>, b: nat)
    requires IsLoop(g, s, h1, ls1) && IsLoop(g, s, h2, ls2) && Reach(g, s, b)
    requires InLoop(g, h1, ls1, b) && InLoop(g, h2, ls2, b)
    requires h1 != h2 && PathDom(g, s, h1, h2)
    ensures InLoop(g, h1, ls1, h2) && !PathDom(g, s, h2, h1)
  {
    HeaderDominatesBody(g, s, h1, ls1, b);
    HeaderDominatesBody(g, s, h2, ls2, b);
    var p :| IsPathFromTo(g, p, s, b);
    var m :| 0 <= m < |p| && p[m] == h2;
    PathPrefix(g, p, m);
    DomDiffers(g, s, h1, h2);
    NotDominatedAvoids(g, s, h2, h1);
    var k := LastOccurrence(p, h1);
    CutAfter(g, s, h2, h1, b, p, k);
    var j :| k <= j < |p| && p[j] == h2;
    PathSuffix(g, p, j);
    assert h1 !in p[j..] by {
      assert forall x :: x in p[j..] ==> x in p[k + 1..];
    }
    assert AvoidsTo(g, h1, h2, b);
    var l :| l in ls1 && AvoidsTo(g, h1, b, l);
    AvoidsJoin(g, h1, h2, b, l);
  }

  /** A loop holding another's header, and strictly dominating it, holds its whole
      body, unreachable blocks included. */
  lemma BodyInside(g: Graph, s: nat, h1: nat, ls1: seq<nat>, h2: nat, ls2: seq<nat>, x: nat)
    requires IsLoop(g, s, h1, ls1) && IsLoop(g, s, h2, ls2)
    requires InLoop(g, h1, ls1, h2) && !PathDom(g, s, h2, h1) && h1 != h2
    requires InLoop(g, h2, ls2, x)
    ensures InLoop(g, h1, ls1, x) && x != h1
  {
    if x == h2 {
    } else {
      var l2 :| l2 in ls2 && AvoidsTo(g, h2, x, l2);
      var q :| IsPathFromTo(g, q, x, l2) && h2 !in q;
      if h1 in q {
        var k :| 0 <= k < |q| && q[k] == h1;
        PathSuffix(g, q, k);
        assert h2 !in q[k..];
        assert AvoidsTo(g, h2, h1, l2);
        HeaderDominatesBody(g, s, h2, ls2, h1);
      }
      assert AvoidsTo(g, h1, x, l2);
      assert q[|q| - 1] in q && q[0] in q;
      var l1 :| l1 in ls1 && AvoidsTo(g, h1, h2, l1);
      AvoidsStep(g, h1, l2, h2, l1);
      AvoidsJoin(g, h1, x, l2, l1);
    }
  }
}
