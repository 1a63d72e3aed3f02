/** Control-flow graphs over block indices, and the path relations every analysis
    is specified against.

    A block is its index in the function's block list. `g[b]` lists the successor
    slots of block `b` in terminator order; a slot is `None` where the terminator
    holds a nil target, which every walk in the compiler skips.
 */
module Graphs {
  datatype Option<+T> = None | Some(value: T)

  type Graph = seq<seq<Option<nat>>>

  ghost predicate WellFormed(g: Graph) {
    forall b, k :: 0 <= b < |g| && 0 <= k < |g[b]| && g[b][k].Some? ==> g[b][k].value < |g|
  }

  ghost predicate Edge(g: Graph, a: nat, b: nat) {
    a < |g| && Some(b) in g[a]
  }

  lemma EdgeInRange(g: Graph, a: nat, b: nat)
    requires WellFormed(g) && Edge(g, a, b)
    ensures a < |g| && b < |g|
  {
    var k :| 0 <= k < |g[a]| && g[a][k] == Some(b);
  }

  /** A path is a nonempty sequence of blocks joined by edges. */
  ghost predicate IsPath(g: Graph, p: seq<nat>) {
    && p != []
    && forall i, j :: 0 <= i && j == i + 1 && j < |p| ==> Edge(g, p[i], p[j])
  }

  ghost predicate IsPathFromTo(g: Graph, p: seq<nat>, a: nat, b: nat) {
    IsPath(g, p) && p[0] == a && p[|p| - 1] == b
  }

  ghost predicate Reach(g: Graph, a: nat, b: nat) {
    exists p :: IsPathFromTo(g, p, a, b)
  }

  lemma ReachSelf(g: Graph, a: nat)
    ensures Reach(g, a, a)
  {
    assert IsPathFromTo(g, [a], a, a);
  }

  lemma PathExtend(g: Graph, p: seq<nat>, a: nat, b: nat, c: nat)
    requires IsPathFromTo(g, p, a, b) && Edge(g, b, c)
    ensures IsPathFromTo(g, p + [c], a, c)
  {
  }

  lemma PathPrepend(g: Graph, p: seq<nat>, a: nat, b: nat, c: nat)
    requires Edge(g, a, b) && IsPathFromTo(g, p, b, c)
    ensures IsPathFromTo(g, [a] + p, a, c)
  {
    var q := [a] + p;
    forall i, j | 0 <= i && j == i + 1 && j < |q|
      ensures Edge(g, q[i], q[j])
    {
      if i > 0 {
        assert q[i] == p[i - 1] && q[j] == p[i];
      }
    }
  }

  lemma PathJoin(g: Graph, p: seq<nat>, q: seq<nat>, a: nat, b: nat, c: nat)
    requires IsPathFromTo(g, p, a, b) && IsPathFromTo(g, q, b, c)
    ensures IsPathFromTo(g, p + q[1..], a, c)
  {
    var r := p + q[1..];
    forall i, j | 0 <= i && j == i + 1 && j < |r|
      ensures Edge(g, r[i], r[j])
    {
      if i >= |p| - 1 {
        assert r[i] == q[i - |p| + 1] && r[j] == q[i - |p| + 2];
      }
    }
  }

  lemma ReachStep(g: Graph, a: nat, b: nat, c: nat)
    requires Reach(g, a, b) && Edge(g, b, c)
    ensures Reach(g, a, c)
  {
    var p :| IsPathFromTo(g, p, a, b);
    PathExtend(g, p, a, b, c);
  }

  lemma ReachEdge(g: Graph, a: nat, b: nat)
    requires Edge(g, a, b)
    ensures Reach(g, a, b)
  {
    assert IsPathFromTo(g, [a, b], a, b);
  }

  lemma ReachTrans(g: Graph, a: nat, b: nat, c: nat)
    requires Reach(g, a, b) && Reach(g, b, c)
    ensures Reach(g, a, c)
  {
    var p :| IsPathFromTo(g, p, a, b);
    var q :| IsPathFromTo(g, q, b, c);
    PathJoin(g, p, q, a, b, c);
  }

  /** Every set closed under edges and holding the first block of a path holds all of it. */
  lemma {:induction false} ClosedHoldsPath(g: Graph, s: set<nat>, p: seq<nat>, k: nat)
    requires IsPath(g, p) && p[0] in s && k < |p|
    requires forall a, b :: a in s && Edge(g, a, b) ==> b in s
    ensures p[k] in s
  {
    if k > 0 {
      ClosedHoldsPath(g, s, p, k - 1);
      assert Edge(g, p[k - 1], p[k]);
    }
  }

  lemma ClosedHoldsReach(g: Graph, s: set<nat>, a: nat, b: nat)
    requires Reach(g, a, b) && a in s
    requires forall x, y :: x in s && Edge(g, x, y) ==> y in s
    ensures b in s
  {
    var p :| IsPathFromTo(g, p, a, b);
    ClosedHoldsPath(g, s, p, |p| - 1);
  }

  lemma ReachInRange(g: Graph, a: nat, b: nat)
    requires WellFormed(g) && Reach(g, a, b) && a < |g|
    ensures b < |g|
  {
    var p :| IsPathFromTo(g, p, a, b);
    if |p| > 1 {
      assert Edge(g, p[|p| - 2], p[|p| - 1]);
      EdgeInRange(g, p[|p| - 2], b);
    }
  }

  /** Paths split at any position. */
  lemma PathPrefix(g: Graph, p: seq<nat>, k: nat)
    requires IsPath(g, p) && k < |p|
    ensures IsPathFromTo(g, p[..k + 1], p[0], p[k])
  {
  }

  lemma PathSuffix(g: Graph, p: seq<nat>, k: nat)
    requires IsPath(g, p) && k < |p|
    ensures IsPathFromTo(g, p[k..], p[k], p[|p| - 1])
  {
    var q := p[k..];
    forall i, j | 0 <= i && j == i + 1 && j < |q|
      ensures Edge(g, q[i], q[j])
    {
      assert q[i] == p[k + i] && q[j] == p[k + j];
    }
  }

  ghost predicate Distinct<T>(s: seq<T>) {
    forall i, j :: 0 <= i < j < |s| ==> s[i] != s[j]
  }

  /** The first n block indices. */
  ghost function Upto(n: nat): (s: set<nat>)
    ensures forall x: nat :: x in s <==> x < n
    ensures |s| == n
  {
    if n == 0 then {} else Upto(n - 1) + {n - 1}
  }

  ghost function Members(s: seq<nat>): (m: set<nat>)
    ensures forall x :: x in m <==> x in s
  {
    set x | x in s
  }

  /** Distinct entries are as many as the set they make. */
  lemma {:induction false} DistinctCount(f: seq<nat>)
    requires Distinct(f)
    ensures |Members(f)| == |f|
  {
    if f != [] {
      var g, x := f[..|f| - 1], f[|f| - 1];
      DistinctCount(g);
      assert f == g + [x] && x !in g;
      assert Members(f) == Members(g) + {x};
    }
  }

  /** What the sets still lack: the measure of a dataflow that only adds. */
  ghost function Missing(ids: set<nat>, sets: seq<set<nat>>): (m: set<(nat, nat)>)
    ensures forall b: nat, i: nat :: (b, i) in m <==> b < |sets| && i in ids && i !in sets[b]
  {
    set b, i | b in Upto(|sets|) && i in ids && i !in sets[b] :: (b, i)
  }

  lemma MissingShrinks(ids: set<nat>, sets: seq<set<nat>>, b: nat, more: set<nat>)
    requires b < |sets| && sets[b] <= more <= ids && more != sets[b]
    ensures Missing(ids, sets[b := more]) < Missing(ids, sets)
  {
    var i :| i in more && i !in sets[b];
    assert (b, i) in Missing(ids, sets) && (b, i) !in Missing(ids, sets[b := more]);
  }

  lemma SubsetSize<T>(a: set<T>, b: set<T>)
    requires a <= b
    ensures |a| <= |b|
  {
    assert |b - a| == |b| - |a|;
  }

  ghost predicate Into<T, U>(b: set<U>, f: map<T, U>, x: T) {
    x in f && f[x] in b
  }

  ghost predicate Maps<T(!new), U>(a: set<T>, b: set<U>, f: map<T, U>) {
    && (forall x {:trigger Into(b, f, x)} :: x in a ==> Into(b, f, x))
    && (forall x, y :: x in a && y in a && x in f && y in f && f[x] == f[y] ==> x == y)
  }

  /** An injective map into b has no more arguments than b has members. */
  lemma {:induction false} InjectiveCount<T(!new), U>(a: set<T>, b: set<U>, f: map<T, U>)
    requires Maps(a, b, f)
    ensures |a| <= |b|
    decreases a
  {
    if a != {} {
      var x :| x in a;
      assert Into(b, f, x);
      forall y | y in a - {x}
        ensures Into(b - {f[x]}, f, y)
      {
        assert Into(b, f, y);
      }
      InjectiveCount(a - {x}, b - {f[x]}, f);
    }
  }
}
