/** Natural loops and the loop-nesting forest (analysis/loop.go,
    analysis/loopforest.go). */
module Loops {
  import opened Graphs
  import opened Sorting
  import opened Cfg
  import opened DomTrees
  import opened LoopTheory
  import opened Nesting

  /** A loop is named by its header; `parent` is the header of the innermost
      enclosing loop. */
  datatype Loop = Loop(header: nat, latches: seq<nat>, body: set<nat>, parent: Option<nat>, depth: nat)

  datatype LoopForest = LoopForest(loops: seq<Loop>, inner: map<nat, Loop>)

  /** A block the worklist has taken but not yet finished may have predecessors
      outside the body; no other body block but the header may. */
  ghost predicate BackwardClosed(g: Graph, h: nat, body: set<nat>, stack: seq<nat>) {
    forall n: nat, p: nat :: n in body && n != h && n !in stack && Edge(g, p, n) ==> p in body
  }

  /** The body of a natural loop: a backward walk from the latches that does not
      pass the header. */
  method NaturalLoop(g: Graph, preds: seq<seq<nat>>, h: nat, latches: seq<nat>) returns (body: set<nat>)
    requires IsPreds(g, preds) && h < |g| && forall l :: l in latches ==> l < |g|
    ensures forall b: nat :: b in body <==> InLoop(g, h, latches, b)
    ensures body <= Upto(|g|)
  {
    hide InLoop;
    body := {h};
    var stack: seq<nat> := [];
    for i := 0 to |latches|
      invariant h in body && body <= Upto(|g|) && forall n :: n in stack ==> n in body && n != h
      invariant forall b :: b in body ==> b == h || (b in stack && b in latches)
      invariant forall k :: 0 <= k < i ==> latches[k] in body
    {
      if latches[i] !in body {
        assert latches[i] in latches;
        body := body + {latches[i]};
        stack := stack + [latches[i]];
      }
    }
    forall b | b in body
      ensures InLoop(g, h, latches, b)
    {
      LatchesInLoop(g, h, latches, b);
    }
    while |stack| > 0
      invariant h in body && body <= Upto(|g|) && forall n :: n in stack ==> n in body && n != h
      invariant forall k :: 0 <= k < |latches| ==> latches[k] in body
      invariant forall b :: b in body ==> InLoop(g, h, latches, b)
      invariant BackwardClosed(g, h, body, stack)
      decreases Upto(|g|) - body, |stack|
    {
      var n := stack[|stack| - 1];
      assert n in stack && n in Upto(|g|);
      assert stack == stack[..|stack| - 1] + [n];
      stack := stack[..|stack| - 1];
      body, stack := TakePreds(g, preds, h, latches, n, body, stack);
    }
    forall b: nat | InLoop(g, h, latches, b)
      ensures b in body
    {
      WalkedAll(g, h, latches, body, b);
    }
  }

  lemma WalkedAll(g: Graph, h: nat, latches: seq<nat>, body: set<nat>, b: nat)
    requires BackwardClosed(g, h, body, []) && h in body && InLoop(g, h, latches, b)
    requires forall l :: l in latches ==> l in body
    ensures b in body
  {
    if b != h {
      var l :| l in latches && AvoidsTo(g, h, b, l);
      var q :| IsPathFromTo(g, q, b, l) && h !in q;
      BackwardHolds(g, h, body, q, 0);
    }
  }

  lemma LatchesInLoop(g: Graph, h: nat, latches: seq<nat>, b: nat)
    requires b == h || b in latches
    ensures InLoop(g, h, latches, b)
  {
    if b != h {
      assert IsPathFromTo(g, [b], b, b) && h !in [b];
      assert AvoidsTo(g, h, b, b);
    }
  }

  lemma {:induction false} BackwardHolds(g: Graph, h: nat, body: set<nat>, q: seq<nat>, k: nat)
    requires BackwardClosed(g, h, body, []) && IsPath(g, q) && h !in q && q[|q| - 1] in body && k < |q|
    ensures q[k] in body
    decreases |q| - k
  {
    if k < |q| - 1 {
      BackwardHolds(g, h, body, q, k + 1);
      assert Edge(g, q[k], q[k + 1]);
      assert q[k + 1] in q;
    }
  }

  /** One worklist step: adds the predecessors of n that are not in the body yet. */
  method TakePreds(g: Graph, preds: seq<seq<nat>>, h: nat, ghost latches: seq<nat>, n: nat,
                   body0: set<nat>, stack0: seq<nat>)
    returns (body: set<nat>, stack: seq<nat>)
    requires IsPreds(g, preds) && n < |g| && n != h && n in body0 && h in body0 && body0 <= Upto(|g|)
    requires forall b :: b in stack0 ==> b in body0 && b != h
    requires forall b :: b in body0 ==> InLoop(g, h, latches, b)
    requires BackwardClosed(g, h, body0, stack0 + [n])
    ensures body0 <= body <= Upto(|g|) && forall b :: b in stack ==> b in body && b != h
    ensures forall b :: b in body ==> InLoop(g, h, latches, b)
    ensures BackwardClosed(g, h, body, stack)
    ensures body == body0 ==> stack == stack0
  {
    hide InLoop;
    body, stack := body0, stack0;
    var ps := preds[n];
    for k := 0 to |ps|
      invariant body0 <= body <= Upto(|g|) && forall b :: b in stack ==> b in body && b != h
      invariant forall b :: b in body ==> InLoop(g, h, latches, b)
      invariant forall x :: 0 <= x < k ==> ps[x] in body
      invariant stack0 <= stack && forall b :: b in body ==> b in body0 || b in stack
      invariant body == body0 ==> stack == stack0
    {
      if ps[k] !in body {
        assert ps[k] in ps;
        EdgeFromRange(g, ps[k], n);
        PredInLoop(g, h, latches, ps[k], n);
        body := body + {ps[k]};
        stack := stack + [ps[k]];
      }
    }
    forall m: nat, p: nat | m in body && m != h && m !in stack && Edge(g, p, m)
      ensures p in body
    {
      assert m in body0;
      assert m !in stack0 by {
        assert forall x :: x in stack0 ==> x in stack;
      }
      if m == n {
        assert p in ps;
      } else {
        assert m !in stack0 + [n];
      }
    }
  }

  lemma EdgeFromRange(g: Graph, a: nat, b: nat)
    requires Edge(g, a, b)
    ensures a < |g|
  {
  }

  lemma PredInLoop(g: Graph, h: nat, latches: seq<nat>, p: nat, n: nat)
    requires Edge(g, p, n) && n != h && InLoop(g, h, latches, n)
    ensures InLoop(g, h, latches, p)
  {
    if p != h {
      var l :| l in latches && AvoidsTo(g, h, n, l);
      AvoidsStep(g, h, p, n, l);
    }
  }

  // ----- the forest -----

  /** b branches to h over an executable edge and h dominates b. */
  ghost predicate BackEdge(exec: Graph, g: Graph, rpo: seq<nat>, b: nat, h: nat) {
    b in rpo && Edge(exec, b, h) && PathDom(g, rpo[0], h, b)
  }

  /** The latches found for each header are exactly the back edges of the blocks
      visited so far. */
  ghost predicate Grouped(exec: Graph, g: Graph, rpo: seq<nat>, seen: seq<nat>, latches: map<nat, seq<nat>>) {
    && (forall h :: h in latches ==> latches[h] != [] && forall b :: b in latches[h] ==> BackEdge(exec, g, rpo, b, h))
    && (forall b, h :: b in seen && BackEdge(exec, g, rpo, b, h) ==> h in latches && b in latches[h])
  }

  method GroupLatches(exec: Graph, ghost g: Graph, rpo: seq<nat>, d: DomTree) returns (latches: map<nat, seq<nat>>)
    requires IsDomTree(g, rpo, d) && forall b :: b in rpo ==> b < |exec|
    ensures Grouped(exec, g, rpo, rpo, latches)
  {
    latches := map[];
    for i := 0 to |rpo|
      invariant Grouped(exec, g, rpo, rpo[..i], latches)
    {
      var b := rpo[i];
      assert b in rpo;
      latches := GroupBlock(exec, g, rpo, d, b, latches, rpo[..i]);
      assert rpo[..i + 1] == rpo[..i] + [b];
    }
    assert rpo[..|rpo|] == rpo;
  }

  method GroupBlock(exec: Graph, ghost g: Graph, ghost rpo: seq<nat>, d: DomTree, b: nat,
                    latches0: map<nat, seq<nat>>, ghost seen: seq<nat>)
    returns (latches: map<nat, seq<nat>>)
    requires IsDomTree(g, rpo, d) && b in rpo && b < |exec| && Grouped(exec, g, rpo, seen, latches0)
    ensures Grouped(exec, g, rpo, seen + [b], latches)
  {
    hide PathDom, IsDomTree;
    latches := latches0;
    var ss := exec[b];
    for k := 0 to |ss|
      invariant Grouped(exec, g, rpo, seen, latches)
      invariant forall x :: 0 <= x < k && ss[x].Some? && PathDom(g, rpo[0], ss[x].value, b) ==>
                  ss[x].value in latches && b in latches[ss[x].value]
    {
      if ss[k].None? {
        continue;
      }
      var s := ss[k].value;
      var back := Dominates(g, rpo, d, s, b);
      if back {
        assert BackEdge(exec, g, rpo, b, s);
        var old_ := if s in latches then latches[s] else [];
        latches := latches[s := old_ + [b]];
      }
    }
    forall x, h | x in seen + [b] && BackEdge(exec, g, rpo, x, h)
      ensures h in latches && x in latches[h]
    {
      if x == b {
        var k :| 0 <= k < |ss| && ss[k] == Some(h);
      }
    }
  }

  /** What every loop in the list is. */
  ghost predicate LoopOk(exec: Graph, g: Graph, rpo: seq<nat>, l: Loop) {
    && l.header in rpo && l.latches != []
    && (forall b :: b in l.latches <==> BackEdge(exec, g, rpo, b, l.header))
    && (forall b: nat :: b in l.body <==> InLoop(g, l.header, l.latches, b))
  }

  /** One loop for each header with a back edge. */
  ghost predicate LoopsOk(exec: Graph, g: Graph, rpo: seq<nat>, loops: seq<Loop>) {
    && (forall i :: 0 <= i < |loops| ==> LoopOk(exec, g, rpo, loops[i]))
    && (forall i, j :: 0 <= i < j < |loops| ==> loops[i].header != loops[j].header)
  }

  ghost predicate Complete(exec: Graph, g: Graph, rpo: seq<nat>, loops: seq<Loop>, upto: nat)
    requires upto <= |rpo|
  {
    forall b, k :: 0 <= k < upto && BackEdge(exec, g, rpo, b, rpo[k]) ==> rpo[k] in Headers(loops)
  }

  ghost function Headers(loops: seq<Loop>): (hs: seq<nat>)
    ensures |hs| == |loops| && forall i :: 0 <= i < |hs| ==> hs[i] == loops[i].header
  {
    seq(|loops|, i requires 0 <= i < |loops| => loops[i].header)
  }

  ghost function Bodies(loops: seq<Loop>): (bs: seq<set<nat>>)
    ensures |bs| == |loops| && forall i :: 0 <= i < |bs| ==> bs[i] == loops[i].body
  {
    seq(|loops|, i requires 0 <= i < |loops| => loops[i].body)
  }

  method BuildLoops(exec: Graph, g: Graph, preds: seq<seq<nat>>, rpo: seq<nat>, latches: map<nat, seq<nat>>)
    returns (loops: seq<Loop>)
    requires IsPreds(g, preds) && Distinct(rpo) && Grouped(exec, g, rpo, rpo, latches)
    requires forall b :: b in rpo ==> b < |g|
    ensures LoopsOk(exec, g, rpo, loops) && Complete(exec, g, rpo, loops, |rpo|)
    ensures forall i :: 0 <= i < |loops| ==> loops[i].parent == None && loops[i].depth == 0
  {
    hide InLoop, PathDom;
    loops := [];
    for i := 0 to |rpo|
      invariant LoopsOk(exec, g, rpo, loops) && Complete(exec, g, rpo, loops, i)
      invariant forall k :: 0 <= k < |loops| ==> loops[k].header in rpo[..i]
      invariant forall k :: 0 <= k < |loops| ==> loops[k].parent == None && loops[k].depth == 0
    {
      var header := rpo[i];
      assert rpo[..i + 1] == rpo[..i] + [header];
      assert header in rpo && header !in rpo[..i];
      if header in latches {
        var ls := latches[header];
        var body := NaturalLoop(g, preds, header, ls);
        var l := Loop(header, ls, body, None, 0);
        assert Headers(loops + [l]) == Headers(loops) + [header];
        loops := loops + [l];
      }
    }
  }

  // ----- bodies nest -----

  ghost predicate SubGraph(exec: Graph, g: Graph) {
    forall a: nat, b: nat :: Edge(exec, a, b) ==> Edge(g, a, b)
  }

  lemma LoopIsLoop(exec: Graph, g: Graph, start: Option<nat>, rpo: seq<nat>, l: Loop)
    requires SubGraph(exec, g) && IsRpo(g, start, rpo) && LoopOk(exec, g, rpo, l)
    ensures IsLoop(g, rpo[0], l.header, l.latches) && Reach(g, rpo[0], l.header)
  {
  }

  /** A loop that holds another loop's header holds that loop's whole body, and its
      own header besides. */
  lemma HeldHeader(exec: Graph, g: Graph, start: Option<nat>, rpo: seq<nat>, a: Loop, b: Loop)
    requires SubGraph(exec, g) && IsRpo(g, start, rpo) && LoopOk(exec, g, rpo, a) && LoopOk(exec, g, rpo, b)
    requires a.header != b.header && a.header in b.body
    ensures a.body < b.body
  {
    var s := rpo[0];
    LoopIsLoop(exec, g, start, rpo, a);
    LoopIsLoop(exec, g, start, rpo, b);
    HeaderDominatesBody(g, s, b.header, b.latches, a.header);
    DomDiffers(g, s, b.header, a.header);
    NotDominatedAvoids(g, s, a.header, b.header);
    forall x | x in a.body
      ensures x in b.body && x != b.header
    {
      BodyInside(g, s, b.header, b.latches, a.header, a.latches, x);
    }
    assert b.header in b.body;
  }

  /** Two loops sharing a reachable block nest. */
  lemma SharedBlock(exec: Graph, g: Graph, start: Option<nat>, rpo: seq<nat>, a: Loop, b: Loop, x: nat)
    requires SubGraph(exec, g) && IsRpo(g, start, rpo) && LoopOk(exec, g, rpo, a) && LoopOk(exec, g, rpo, b)
    requires a.header != b.header && x in rpo && x in a.body && x in b.body
    ensures a.header in b.body || b.header in a.body
  {
    var s := rpo[0];
    LoopIsLoop(exec, g, start, rpo, a);
    LoopIsLoop(exec, g, start, rpo, b);
    HeaderDominatesBody(g, s, a.header, a.latches, x);
    HeaderDominatesBody(g, s, b.header, b.latches, x);
    DominatorsOrdered(g, s, a.header, b.header, x);
    if PathDom(g, s, a.header, b.header) {
      HeaderInside(g, s, a.header, a.latches, b.header, b.latches, x);
    } else {
      HeaderInside(g, s, b.header, b.latches, a.header, a.latches, x);
    }
  }

  /** Any two loops have bodies that share no reachable block, or one body strictly
      contains the other. */
  lemma DisjointOrNested(exec: Graph, g: Graph, start: Option<nat>, rpo: seq<nat>, a: Loop, b: Loop)
    requires SubGraph(exec, g) && IsRpo(g, start, rpo) && LoopOk(exec, g, rpo, a) && LoopOk(exec, g, rpo, b)
    requires a.header != b.header
    ensures (forall x :: x in a.body && x in b.body ==> x !in rpo) || a.body < b.body || b.body < a.body
  {
    if x :| x in a.body && x in b.body && x in rpo {
      SharedBlock(exec, g, start, rpo, a, b, x);
      if a.header in b.body {
        HeldHeader(exec, g, start, rpo, a, b);
      } else {
        HeldHeader(exec, g, start, rpo, b, a);
      }
    }
  }

  /** b reaches a block that branches back to header h, without passing h. */
  ghost predicate ReachesLatch(exec: Graph, g: Graph, rpo: seq<nat>, h: nat, b: nat) {
    exists l :: BackEdge(exec, g, rpo, l, h) && AvoidsTo(g, h, b, l)
  }

  /** b lies in the natural loop of header h, by paths alone. */
  ghost predicate InNatural(exec: Graph, g: Graph, rpo: seq<nat>, h: nat, b: nat) {
    b == h || ReachesLatch(exec, g, rpo, h, b)
  }

  ghost predicate IsHeader(exec: Graph, g: Graph, rpo: seq<nat>, h: nat) {
    h in rpo && exists b :: BackEdge(exec, g, rpo, b, h)
  }

  lemma BodyIsNatural(exec: Graph, g: Graph, rpo: seq<nat>, l: Loop, b: nat)
    requires LoopOk(exec, g, rpo, l)
    ensures b in l.body <==> InNatural(exec, g, rpo, l.header, b)
    ensures IsHeader(exec, g, rpo, l.header)
  {
    assert l.latches[0] in l.latches;
    assert InLoop(g, l.header, l.latches, b) <==> InNatural(exec, g, rpo, l.header, b);
  }

  /** An unreachable block that enters two loops below their headers, neither header
      being inside the other loop. */
  ghost predicate Straddles(exec: Graph, g: Graph, rpo: seq<nat>, h1: nat, h2: nat, u: nat) {
    && u !in rpo
    && ReachesLatch(exec, g, rpo, h1, u) && ReachesLatch(exec, g, rpo, h2, u)
    && !ReachesLatch(exec, g, rpo, h1, h2) && !ReachesLatch(exec, g, rpo, h2, h1)
  }

  ghost predicate Nested(a: set<nat>, b: set<nat>) {
    a !! b || a < b || b < a
  }

  /** Counting unreachable blocks too, two bodies are disjoint or nested exactly when
      no unreachable block straddles the two headers. */
  lemma DisjointOrNestedExactly(exec: Graph, g: Graph, start: Option<nat>, rpo: seq<nat>, a: Loop, b: Loop)
    requires SubGraph(exec, g) && IsRpo(g, start, rpo) && LoopOk(exec, g, rpo, a) && LoopOk(exec, g, rpo, b)
    requires a.header != b.header
    ensures Nested(a.body, b.body) <==> !exists u :: Straddles(exec, g, rpo, a.header, b.header, u)
  {
    hide IsRpo, LoopOk, BackEdge, ReachesLatch, AvoidsTo;
    forall x
      ensures x in a.body <==> InNatural(exec, g, rpo, a.header, x)
      ensures x in b.body <==> InNatural(exec, g, rpo, b.header, x)
    {
      BodyIsNatural(exec, g, rpo, a, x);
      BodyIsNatural(exec, g, rpo, b, x);
    }
    if a.header in b.body {
      HeldHeader(exec, g, start, rpo, a, b);
    } else if b.header in a.body {
      HeldHeader(exec, g, start, rpo, b, a);
    } else {
      DisjointOrNested(exec, g, start, rpo, a, b);
      assert a.header in a.body && b.header in b.body;
      if x :| x in a.body && x in b.body {
        assert Straddles(exec, g, rpo, a.header, b.header, x);
      }
      if u :| Straddles(exec, g, rpo, a.header, b.header, u) {
        assert u in a.body && u in b.body;
      }
    }
  }

  /** Every branch into a reachable block comes from a reachable block. */
  ghost predicate EntriesReachable(g: Graph, rpo: seq<nat>) {
    forall p: nat, b: nat :: b in rpo && Edge(g, p, b) ==> p in rpo
  }

  lemma {:induction false} ReachableBackwards(g: Graph, rpo: seq<nat>, q: seq<nat>, k: nat)
    requires EntriesReachable(g, rpo) && IsPath(g, q) && q[|q| - 1] in rpo && k < |q|
    ensures q[k] in rpo
    decreases |q| - k
  {
    if k < |q| - 1 {
      ReachableBackwards(g, rpo, q, k + 1);
      assert Edge(g, q[k], q[k + 1]);
    }
  }

  /** When only reachable blocks branch to reachable ones, a body holds reachable
      blocks only, and any two bodies are disjoint or nested. */
  lemma ReachableEntriesNest(exec: Graph, g: Graph, start: Option<nat>, rpo: seq<nat>, a: Loop, b: Loop)
    requires SubGraph(exec, g) && IsRpo(g, start, rpo) && LoopOk(exec, g, rpo, a) && LoopOk(exec, g, rpo, b)
    requires a.header != b.header && EntriesReachable(g, rpo)
    ensures Nested(a.body, b.body) && forall x :: x in a.body ==> x in rpo
  {
    forall x | ReachesLatch(exec, g, rpo, a.header, x)
      ensures x in rpo
    {
      var l :| BackEdge(exec, g, rpo, l, a.header) && AvoidsTo(g, a.header, x, l);
      var q :| IsPathFromTo(g, q, x, l) && a.header !in q;
      ReachableBackwards(g, rpo, q, 0);
    }
    forall x | x in a.body
      ensures x in rpo
    {
      BodyIsNatural(exec, g, rpo, a, x);
    }
    DisjointOrNestedExactly(exec, g, start, rpo, a, b);
  }

  /** All loops of the graph are disjoint or nested, as sets of blocks. */
  ghost predicate AllNested(loops: seq<Loop>) {
    forall a, b :: a in loops && b in loops && a.header != b.header ==> Nested(a.body, b.body)
  }

  ghost predicate AnyStraddles(exec: Graph, g: Graph, rpo: seq<nat>) {
    exists h1, h2, u :: IsHeader(exec, g, rpo, h1) && IsHeader(exec, g, rpo, h2) && h1 != h2 && Straddles(exec, g, rpo, h1, h2, u)
  }

  /** A block outside s, reached from inside it, is dominated by the only way out. */
  lemma OnlyWayOut(g: Graph, s: set<nat>, a: nat, h: nat, b: nat)
    requires a in s && b !in s && h !in s
    requires forall x, y :: x in s && Edge(g, x, y) ==> y in s || y == h
    ensures PathDom(g, a, h, b)
  {
    forall p | IsPathFromTo(g, p, a, b)
      ensures h in p
    {
      if h !in p {
        StaysInside(g, s, h, p, |p| - 1);
      }
    }
  }

  lemma {:induction false} StaysInside(g: Graph, s: set<nat>, h: nat, p: seq<nat>, k: nat)
    requires IsPath(g, p) && p[0] in s && h !in p && k < |p|
    requires forall x, y :: x in s && Edge(g, x, y) ==> y in s || y == h
    ensures p[k] in s
  {
    if k > 0 {
      StaysInside(g, s, h, p, k - 1);
      assert Edge(g, p[k - 1], p[k]) && p[k] in p;
    }
  }

  /** Two loops, 1-2 and 3-4, and an unreachable block 5 that branches into both. */
  const STRADDLED: Graph := [[Some(1)], [Some(2)], [Some(1), Some(3)], [Some(4)], [Some(3)], [Some(2), Some(4)]]

  lemma StraddledLoops()
    ensures IsLoop(STRADDLED, 0, 1, [2]) && IsLoop(STRADDLED, 0, 3, [4])
  {
    var g := STRADDLED;
    assert Edge(g, 0, 1) && Edge(g, 1, 2) && Edge(g, 2, 1) && Edge(g, 2, 3) && Edge(g, 3, 4) && Edge(g, 4, 3);
    assert IsPathFromTo(g, [0, 1, 2], 0, 2) && IsPathFromTo(g, [0, 1, 2, 3, 4], 0, 4);
    OnlyWayOut(g, {0}, 0, 1, 2);
    OnlyWayOut(g, {0, 1, 2}, 0, 3, 4);
  }

  lemma StraddledApart()
    ensures !InLoop(STRADDLED, 1, [2], 3) && !InLoop(STRADDLED, 3, [4], 1)
  {
    var g := STRADDLED;
    OnlyWayOut(g, {3, 4}, 3, 1, 2);
    NotDominatedAvoids(g, 3, 1, 2);
    OnlyWayOut(g, {1, 2}, 1, 3, 4);
    NotDominatedAvoids(g, 1, 3, 4);
  }

  /** The unreachable block lies in both bodies, though neither body holds the other. */
  lemma UnreachableCanStraddle()
    ensures IsLoop(STRADDLED, 0, 1, [2]) && IsLoop(STRADDLED, 0, 3, [4]) && !Reach(STRADDLED, 0, 5)
    ensures InLoop(STRADDLED, 1, [2], 5) && InLoop(STRADDLED, 3, [4], 5)
    ensures !InLoop(STRADDLED, 1, [2], 3) && !InLoop(STRADDLED, 3, [4], 1)
  {
    var g := STRADDLED;
    StraddledLoops();
    StraddledApart();
    if Reach(g, 0, 5) {
      ClosedHoldsReach(g, {0, 1, 2, 3, 4}, 0, 5);
    }
    assert Edge(g, 5, 2) && Edge(g, 5, 4);
    assert IsPathFromTo(g, [5, 2], 5, 2) && IsPathFromTo(g, [5, 4], 5, 4);
    assert AvoidsTo(g, 1, 5, 2) && AvoidsTo(g, 3, 5, 4);
  }

  lemma LoopsNest(exec: Graph, g: Graph, start: Option<nat>, rpo: seq<nat>, loops: seq<Loop>)
    requires SubGraph(exec, g) && IsRpo(g, start, rpo) && LoopsOk(exec, g, rpo, loops)
    ensures Nest(Headers(loops), Bodies(loops), set b | b in rpo)
  {
    var heads, bodies := Headers(loops), Bodies(loops);
    hide LoopOk, InLoop, IsRpo;
    forall i | 0 <= i < |heads|
      ensures heads[i] in bodies[i] && heads[i] in rpo
    {
      HeaderHeld(exec, g, rpo, loops[i]);
    }
    forall i, j | 0 <= i < |heads| && 0 <= j < |heads| && i != j && heads[i] in bodies[j]
      ensures bodies[i] < bodies[j]
    {
      HeldHeader(exec, g, start, rpo, loops[i], loops[j]);
    }
    forall i, j, b | 0 <= i < j < |heads| && b in bodies[i] && b in bodies[j] && b in rpo
      ensures heads[i] in bodies[j] || heads[j] in bodies[i]
    {
      SharedBlock(exec, g, start, rpo, loops[i], loops[j], b);
    }
  }

  lemma HeaderHeld(exec: Graph, g: Graph, rpo: seq<nat>, l: Loop)
    requires LoopOk(exec, g, rpo, l)
    ensures l.header in l.body && l.header in rpo
  {
  }

  // ----- what depth counts -----

  /** The headers of the natural loops around b. */
  ghost function Around(exec: Graph, g: Graph, rpo: seq<nat>, b: nat): (s: set<nat>)
    ensures forall h :: h in s <==> IsHeader(exec, g, rpo, h) && InNatural(exec, g, rpo, h, b)
  {
    set h | h in rpo && IsHeader(exec, g, rpo, h) && InNatural(exec, g, rpo, h, b)
  }

  lemma {:induction false} ImageSize(f: seq<nat>, s: set<nat>, t: set<nat>)
    requires Distinct(f) && forall i :: i in s ==> i < |f|
    requires forall h :: h in t <==> exists i :: i in s && f[i] == h
    ensures |s| == |t|
    decreases |s|
  {
    if s == {} {
      assert forall h :: h !in t;
    } else {
      var i :| i in s;
      assert f[i] in t;
      forall h
        ensures h in t - {f[i]} <==> exists j :: j in s - {i} && f[j] == h
      {
        if h in t - {f[i]} {
          var j :| j in s && f[j] == h;
          assert j in s - {i};
        }
      }
      ImageSize(f, s - {i}, t - {f[i]});
    }
  }

  /** The listed loops around b are the natural loops around b. */
  lemma HoldingIsAround(exec: Graph, g: Graph, rpo: seq<nat>, loops: seq<Loop>, b: nat)
    requires LoopsOk(exec, g, rpo, loops) && Complete(exec, g, rpo, loops, |rpo|)
    ensures |Holding(Bodies(loops), b)| == |Around(exec, g, rpo, b)|
    ensures forall h :: h in Around(exec, g, rpo, b) <==> exists i :: i in Holding(Bodies(loops), b) && Headers(loops)[i] == h
  {
    var s, t, hs := Holding(Bodies(loops), b), Around(exec, g, rpo, b), Headers(loops);
    hide LoopOk, InNatural;
    forall h
      ensures h in t <==> exists i :: i in s && hs[i] == h
    {
      if h in t {
        var i := ListedHeader(exec, g, rpo, loops, h);
        BodyIsNatural(exec, g, rpo, loops[i], b);
        assert i in s && hs[i] == h;
      }
      if i :| i in s && hs[i] == h {
        BodyIsNatural(exec, g, rpo, loops[i], b);
      }
    }
    ImageSize(hs, s, t);
  }

  lemma ListedHeader(exec: Graph, g: Graph, rpo: seq<nat>, loops: seq<Loop>, h: nat) returns (i: nat)
    requires Complete(exec, g, rpo, loops, |rpo|) && IsHeader(exec, g, rpo, h)
    ensures i < |loops| && loops[i].header == h
  {
    var k :| 0 <= k < |rpo| && rpo[k] == h;
    var b :| BackEdge(exec, g, rpo, b, h);
    assert rpo[k] in Headers(loops);
    i :| i < |loops| && Headers(loops)[i] == h;
  }

  // ----- parents, depths, innermost loops -----

  /** The smallest other body holding the header, first in list order among equals. */
  method FindParent(loops: seq<Loop>, i: nat) returns (p: Option<nat>)
    requires i < |loops|
    ensures IsParent(Headers(loops), Bodies(loops), i, p)
  {
    p := None;
    var h := loops[i].header;
    for j := 0 to |loops|
      invariant p.None? ==> forall k :: 0 <= k < j && k != i ==> h !in loops[k].body
      invariant p.Some? ==> p.value < |loops| && p.value != i && h in loops[p.value].body
      invariant p.Some? ==> forall k :: 0 <= k < j && k != i && h in loops[k].body ==>
                  |loops[p.value].body| <= |loops[k].body|
    {
      if j != i && h in loops[j].body {
        if p.None? || |loops[j].body| < |loops[p.value].body| {
          p := Some(j);
        }
      }
    }
  }

  ghost predicate ParentsOk(heads: seq<nat>, bodies: seq<set<nat>>, parent: seq<Option<nat>>) {
    && |heads| == |bodies| == |parent|
    && forall i :: 0 <= i < |parent| ==> IsParent(heads, bodies, i, parent[i])
  }

  /** A stored depth is unset or counts the loops around the header. */
  ghost predicate DepthsOk(heads: seq<nat>, bodies: seq<set<nat>>, depth: seq<nat>) {
    && |heads| == |bodies| == |depth|
    && forall i :: 0 <= i < |depth| ==> depth[i] == 0 || depth[i] == |Holding(bodies, heads[i])|
  }

  /** The memoised walk up the parent chain. */
  method DepthOf(ghost heads: seq<nat>, ghost bodies: seq<set<nat>>, ghost live: set<nat>, ghost all: set<nat>,
                 parent: seq<Option<nat>>, depth0: seq<nat>, i: nat)
    returns (depth: seq<nat>)
    requires Nest(heads, bodies, live) && ParentsOk(heads, bodies, parent) && DepthsOk(heads, bodies, depth0)
    requires i < |heads| && forall k :: 0 <= k < |bodies| ==> bodies[k] <= all
    ensures DepthsOk(heads, bodies, depth)
    ensures depth[i] == |Holding(bodies, heads[i])| > 0
    ensures forall k :: 0 <= k < |depth| && depth0[k] != 0 ==> depth[k] != 0
    decreases all - bodies[i]
  {
    depth := depth0;
    assert i in Holding(bodies, heads[i]);
    if depth[i] != 0 {
      return;
    }
    assert IsParent(heads, bodies, i, parent[i]);
    if parent[i].None? {
      assert Holding(bodies, heads[i]) == {i};
      depth := depth[i := 1];
    } else {
      var p := parent[i].value;
      ParentDropsOne(heads, bodies, live, i, p);
      depth := DepthOf(heads, bodies, live, all, parent, depth, p);
      depth := depth[i := depth[p] + 1];
    }
  }

  method Depths(ghost heads: seq<nat>, ghost bodies: seq<set<nat>>, ghost live: set<nat>, ghost all: set<nat>,
                parent: seq<Option<nat>>)
    returns (depth: seq<nat>)
    requires Nest(heads, bodies, live) && ParentsOk(heads, bodies, parent)
    requires forall k :: 0 <= k < |bodies| ==> bodies[k] <= all
    ensures |depth| == |parent|
    ensures forall i :: 0 <= i < |depth| ==> depth[i] == |Holding(bodies, heads[i])|
  {
    hide Nest, ParentsOk, IsParent;
    depth := seq(|parent|, _ => 0);
    ParentsLength(heads, bodies, parent);
    for i := 0 to |parent|
      invariant DepthsOk(heads, bodies, depth)
      invariant forall k :: 0 <= k < i ==> depth[k] != 0
    {
      depth := DepthOf(heads, bodies, live, all, parent, depth, i);
    }
  }

  lemma ParentsLength(heads: seq<nat>, bodies: seq<set<nat>>, parent: seq<Option<nat>>)
    requires ParentsOk(heads, bodies, parent)
    ensures |heads| == |bodies| == |parent|
  {
  }

  /** The deepest loop around each block, first in list order among equals. */
  ghost predicate InnermostOk(loops: seq<Loop>, inner: map<nat, Loop>) {
    && (forall b :: b in inner ==> inner[b] in loops && b in inner[b].body)
    && (forall b, i :: 0 <= i < |loops| && b in loops[i].body ==> b in inner && loops[i].depth <= inner[b].depth)
  }

  method Innermost(loops: seq<Loop>) returns (inner: map<nat, Loop>)
    ensures InnermostOk(loops, inner)
  {
    inner := map[];
    for i := 0 to |loops|
      invariant InnermostOk(loops[..i], inner)
    {
      var l := loops[i];
      ghost var before := inner;
      var rest := l.body;
      while rest != {}
        invariant rest <= l.body
        invariant forall b :: b in inner ==> (b in before && inner[b] == before[b]) || (inner[b] == l && b in l.body)
        invariant forall b :: b in before ==> b in inner && before[b].depth <= inner[b].depth
        invariant forall b :: b in l.body - rest ==> b in inner && l.depth <= inner[b].depth
        decreases rest
      {
        var b :| b in rest;
        if b !in inner || l.depth > inner[b].depth {
          inner := inner[b := l];
        }
        rest := rest - {b};
      }
      assert loops[..i + 1] == loops[..i] + [l];
    }
    assert loops[..|loops|] == loops;
  }

  ghost predicate InnermostFirst(loops: seq<Loop>) {
    forall i, j :: 0 <= i < j < |loops| ==> loops[i].depth >= loops[j].depth
  }

  /** The stable sort by decreasing depth. */
  method SortByDepth(loops: seq<Loop>) returns (r: seq<Loop>)
    ensures InnermostFirst(r) && multiset(r) == multiset(loops)
  {
    var deeper := (a: Loop, b: Loop) => a.depth > b.depth;
    r := Sort(deeper, loops);
    assert forall a, b :: deeper(a, b) <==> a.depth > b.depth;
  }

  // ----- the whole construction -----

  /** A finished loop: its depth counts the natural loops around its header, and its
      parent is the next one out. */
  ghost predicate Finished(exec: Graph, g: Graph, rpo: seq<nat>, l: Loop) {
    && LoopOk(exec, g, rpo, l)
    && l.depth == |Around(exec, g, rpo, l.header)|
    && match l.parent
       case None => Around(exec, g, rpo, l.header) == {l.header}
       case Some(p) => Around(exec, g, rpo, l.header) == {l.header} + Around(exec, g, rpo, p) &&
                       l.header !in Around(exec, g, rpo, p)
  }

  /** What the forest says of one block, reachable or not. */
  ghost predicate InnerAt(exec: Graph, g: Graph, rpo: seq<nat>, f: LoopForest, b: nat) {
    && (b in f.inner <==> Around(exec, g, rpo, b) != {})
    && (b in f.inner ==>
          && f.inner[b] in f.loops && b in f.inner[b].body
          && (forall h :: h in Around(exec, g, rpo, b) ==> |Around(exec, g, rpo, h)| <= f.inner[b].depth)
          && (b in rpo ==> f.inner[b].depth == |Around(exec, g, rpo, b)|))
  }

  ghost predicate ForestOk(exec: Graph, g: Graph, rpo: seq<nat>, f: LoopForest) {
    && (forall l :: l in f.loops ==> Finished(exec, g, rpo, l))
    && (forall h :: IsHeader(exec, g, rpo, h) ==> exists l :: l in f.loops && l.header == h)
    && InnermostFirst(f.loops)
    && (forall b :: InnerAt(exec, g, rpo, f, b))
    && (AllNested(f.loops) <==> !AnyStraddles(exec, g, rpo))
  }

  /** Everything known once the bodies are built. */
  ghost predicate Built(exec: Graph, g: Graph, start: Option<nat>, rpo: seq<nat>, loops: seq<Loop>) {
    && SubGraph(exec, g) && IsRpo(g, start, rpo)
    && LoopsOk(exec, g, rpo, loops) && Complete(exec, g, rpo, loops, |rpo|)
  }

  lemma ParentAround(exec: Graph, g: Graph, start: Option<nat>, rpo: seq<nat>, loops: seq<Loop>, i: nat, p: Option<nat>)
    requires Built(exec, g, start, rpo, loops) && i < |loops| && IsParent(Headers(loops), Bodies(loops), i, p)
    ensures p.None? ==> Around(exec, g, rpo, loops[i].header) == {loops[i].header}
    ensures p.Some? ==> p.value < |loops| &&
                        Around(exec, g, rpo, loops[i].header) == {loops[i].header} + Around(exec, g, rpo, loops[p.value].header) &&
                        loops[i].header !in Around(exec, g, rpo, loops[p.value].header)
  {
    hide IsHeader, InNatural, LoopOk, IsRpo;
    var heads, bodies, live := Headers(loops), Bodies(loops), set b | b in rpo;
    LoopsNest(exec, g, start, rpo, loops);
    HoldingIsAround(exec, g, rpo, loops, heads[i]);
    assert i in Holding(bodies, heads[i]);
    if p.Some? {
      ParentDropsOne(heads, bodies, live, i, p.value);
      HoldingIsAround(exec, g, rpo, loops, heads[p.value]);
      ImageOfUnion(heads, Holding(bodies, heads[i]), Holding(bodies, heads[p.value]), i,
                   Around(exec, g, rpo, heads[i]), Around(exec, g, rpo, heads[p.value]));
    } else {
      assert Holding(bodies, heads[i]) == {i};
      assert forall h :: h in Around(exec, g, rpo, heads[i]) <==> h == heads[i];
    }
  }

  lemma ImageOfUnion(f: seq<nat>, s: set<nat>, s': set<nat>, i: nat, t: set<nat>, t': set<nat>)
    requires Distinct(f) && s == {i} + s' && i !in s' && forall k :: k in s ==> k < |f|
    requires forall h :: h in t <==> exists k :: k in s && f[k] == h
    requires forall h :: h in t' <==> exists k :: k in s' && f[k] == h
    ensures t == {f[i]} + t' && f[i] !in t'
  {
    assert i in s;
    forall h | h in t
      ensures h in {f[i]} + t'
    {
      var k :| k in s && f[k] == h;
    }
    forall h | h in t'
      ensures h in t && h != f[i]
    {
      var k :| k in s' && f[k] == h;
      assert k in s;
    }
  }

  lemma FinishOne(exec: Graph, g: Graph, start: Option<nat>, rpo: seq<nat>, loops: seq<Loop>, i: nat, p: Option<nat>, l: Loop)
    requires Built(exec, g, start, rpo, loops) && i < |loops| && IsParent(Headers(loops), Bodies(loops), i, p)
    requires p.Some? ==> p.value < |loops|
    requires l == loops[i].(parent := if p.Some? then Some(loops[p.value].header) else None,
                            depth := |Holding(Bodies(loops), loops[i].header)|)
    ensures Finished(exec, g, rpo, l)
  {
    ParentAround(exec, g, start, rpo, loops, i, p);
    HoldingIsAround(exec, g, rpo, loops, loops[i].header);
    assert LoopOk(exec, g, rpo, loops[i]);
  }

  /** The innermost loop's depth is the number of natural loops around the block. */
  lemma InnerDepth(exec: Graph, g: Graph, start: Option<nat>, rpo: seq<nat>, raw: seq<Loop>, loops: seq<Loop>,
                   inner: map<nat, Loop>, b: nat)
    requires Built(exec, g, start, rpo, raw) && b in rpo && InnermostOk(loops, inner)
    requires |loops| == |raw| && forall i :: 0 <= i < |raw| ==> loops[i].body == raw[i].body
    requires forall i :: 0 <= i < |raw| ==> loops[i].depth == |Holding(Bodies(raw), raw[i].header)|
    ensures if b in inner then inner[b].depth == |Around(exec, g, rpo, b)| else Around(exec, g, rpo, b) == {}
  {
    hide IsHeader, InNatural, LoopsOk, Complete, IsRpo, Nest, InnermostOk;
    var depth := seq(|loops|, i requires 0 <= i < |loops| => loops[i].depth);
    LoopsNest(exec, g, start, rpo, raw);
    HoldingIsAround(exec, g, rpo, raw, b);
    var l := InnerIsDeepest(raw, loops, inner, b);
    if b in inner {
      DeepestCounts(Headers(raw), Bodies(raw), (set x | x in rpo), depth, b, l);
    }
  }

  lemma InnerIsDeepest(raw: seq<Loop>, loops: seq<Loop>, inner: map<nat, Loop>, b: nat) returns (l: nat)
    requires |loops| == |raw| && InnermostOk(loops, inner)
    requires forall i :: 0 <= i < |raw| ==> loops[i].body == raw[i].body
    ensures b !in inner ==> Holding(Bodies(raw), b) == {}
    ensures b in inner ==> l in Holding(Bodies(raw), b) && inner[b] == loops[l]
    ensures b in inner ==> forall i :: i in Holding(Bodies(raw), b) ==> loops[i].depth <= loops[l].depth
  {
    l := 0;
    if b in inner {
      l :| l < |loops| && loops[l] == inner[b];
    }
  }

  method FindParents(loops: seq<Loop>) returns (parent: seq<Option<nat>>)
    ensures ParentsOk(Headers(loops), Bodies(loops), parent)
    ensures forall i :: 0 <= i < |parent| && parent[i].Some? ==> parent[i].value < |loops|
  {
    hide IsParent;
    parent := [];
    for i := 0 to |loops|
      invariant |parent| == i
      invariant forall k :: 0 <= k < i ==> IsParent(Headers(loops), Bodies(loops), k, parent[k])
      invariant forall k :: 0 <= k < i && parent[k].Some? ==> parent[k].value < |loops|
    {
      var p := FindParent(loops, i);
      ParentInRange(loops, i, p);
      parent := parent + [p];
    }
  }

  lemma ParentInRange(loops: seq<Loop>, i: nat, p: Option<nat>)
    requires i < |loops| && IsParent(Headers(loops), Bodies(loops), i, p)
    ensures p.Some? ==> p.value < |loops|
  {
  }

  method Finish(raw: seq<Loop>, parent: seq<Option<nat>>, depth: seq<nat>) returns (loops: seq<Loop>)
    requires |raw| == |parent| == |depth|
    requires forall i :: 0 <= i < |parent| && parent[i].Some? ==> parent[i].value < |raw|
    ensures |loops| == |raw|
    ensures forall i :: 0 <= i < |raw| ==>
              loops[i] == raw[i].(parent := if parent[i].Some? then Some(raw[parent[i].value].header) else None, depth := depth[i])
  {
    loops := [];
    for i := 0 to |raw|
      invariant |loops| == i
      invariant forall k :: 0 <= k < i ==>
                  loops[k] == raw[k].(parent := if parent[k].Some? then Some(raw[parent[k].value].header) else None, depth := depth[k])
    {
      var p := if parent[i].Some? then Some(raw[parent[i].value].header) else None;
      loops := loops + [raw[i].(parent := p, depth := depth[i])];
    }
  }

  method DepthsOfLoops(exec: Graph, g: Graph, ghost start: Option<nat>, rpo: seq<nat>, raw: seq<Loop>)
    returns (loops: seq<Loop>)
    requires Built(exec, g, start, rpo, raw)
    ensures |loops| == |raw|
    ensures forall i :: 0 <= i < |raw| ==> loops[i].body == raw[i].body && loops[i].header == raw[i].header
    ensures forall i :: 0 <= i < |raw| ==> loops[i].depth == |Holding(Bodies(raw), raw[i].header)|
    ensures forall i :: 0 <= i < |raw| ==> Finished(exec, g, rpo, loops[i])
  {
    hide Finished, Built, Nest, IsParent;
    ghost var heads, bodies, live := Headers(raw), Bodies(raw), set b | b in rpo;
    BuiltNest(exec, g, start, rpo, raw);
    var parent := FindParents(raw);
    ghost var all := UnionOf(bodies);
    var depth := Depths(heads, bodies, live, all, parent);
    loops := Finish(raw, parent, depth);
    forall i | 0 <= i < |raw|
      ensures Finished(exec, g, rpo, loops[i])
    {
      FinishOne(exec, g, start, rpo, raw, i, parent[i], loops[i]);
    }
  }

  lemma BuiltNest(exec: Graph, g: Graph, start: Option<nat>, rpo: seq<nat>, raw: seq<Loop>)
    requires Built(exec, g, start, rpo, raw)
    ensures Nest(Headers(raw), Bodies(raw), set b | b in rpo)
  {
    LoopsNest(exec, g, start, rpo, raw);
  }

  ghost function UnionOf(bodies: seq<set<nat>>): (u: set<nat>)
    ensures forall k :: 0 <= k < |bodies| ==> bodies[k] <= u
  {
    if bodies == [] then {} else UnionOf(bodies[..|bodies| - 1]) + bodies[|bodies| - 1]
  }

  /** The loop-nesting forest of a built graph. `exec` is the executable successors,
      a subset of the graph's edges. */
  method BuildForest(exec: Graph, c: CFG, d: DomTree) returns (f: LoopForest)
    requires c.Valid() && WellFormed(c.g) && (c.start.Some? ==> c.start.value < |c.g|)
    requires IsDomTree(c.g, c.rpo, d) && SubGraph(exec, c.g) && |exec| == |c.g|
    ensures ForestOk(exec, c.g, c.rpo, f)
  {
    var rpo, g, preds := c.rpo, c.g, c.preds;
    forall b | b in rpo
      ensures b < |g|
    {
      ReachInRange(g, c.start.value, b);
    }
    var latches := GroupLatches(exec, g, rpo, d);
    var raw := BuildLoops(exec, g, preds, rpo, latches);
    var loops := DepthsOfLoops(exec, g, c.start, rpo, raw);
    var inner := Innermost(loops);
    var sorted := SortByDepth(loops);
    f := LoopForest(sorted, inner);
    ForestIsOk(exec, g, c.start, rpo, raw, loops, f);
  }

  lemma ForestIsOk(exec: Graph, g: Graph, start: Option<nat>, rpo: seq<nat>, raw: seq<Loop>, loops: seq<Loop>, f: LoopForest)
    requires Built(exec, g, start, rpo, raw) && |loops| == |raw|
    requires forall i :: 0 <= i < |raw| ==> loops[i].body == raw[i].body && loops[i].header == raw[i].header
    requires forall i :: 0 <= i < |raw| ==> loops[i].depth == |Holding(Bodies(raw), raw[i].header)|
    requires forall i :: 0 <= i < |raw| ==> Finished(exec, g, rpo, loops[i])
    requires InnermostOk(loops, f.inner) && InnermostFirst(f.loops) && multiset(f.loops) == multiset(loops)
    ensures ForestOk(exec, g, rpo, f)
  {
    hide Finished, IsHeader, Built, InnermostOk, InnerAt, InnermostFirst, AllNested, AnyStraddles;
    SameLoops(f.loops, loops);
    forall h | IsHeader(exec, g, rpo, h)
      ensures exists l :: l in f.loops && l.header == h
    {
      var i := BuiltHeader(exec, g, start, rpo, raw, h);
      assert loops[i] in f.loops;
    }
    forall b
      ensures InnerAt(exec, g, rpo, f, b)
    {
      InnerIsOk(exec, g, start, rpo, raw, loops, f, b);
    }
    NestedExactly(exec, g, start, rpo, raw, f.loops);
  }

  lemma InnerIsOk(exec: Graph, g: Graph, start: Option<nat>, rpo: seq<nat>, raw: seq<Loop>, loops: seq<Loop>,
                  f: LoopForest, b: nat)
    requires Built(exec, g, start, rpo, raw) && |loops| == |raw| && InnermostOk(loops, f.inner)
    requires forall i :: 0 <= i < |raw| ==> loops[i].body == raw[i].body && loops[i].header == raw[i].header
    requires forall i :: 0 <= i < |raw| ==> loops[i].depth == |Holding(Bodies(raw), raw[i].header)|
    requires forall i :: 0 <= i < |raw| ==> Finished(exec, g, rpo, loops[i])
    requires forall l :: l in f.loops <==> l in loops
    ensures InnerAt(exec, g, rpo, f, b)
  {
    hide Finished, Built, InnermostOk;
    if b in rpo {
      InnerDepth(exec, g, start, rpo, raw, loops, f.inner, b);
    }
    InnerCovers(exec, g, start, rpo, raw, loops, f.inner, b);
  }

  lemma SameLoops(a: seq<Loop>, b: seq<Loop>)
    requires multiset(a) == multiset(b)
    ensures forall l :: l in a <==> l in b
  {
    forall l
      ensures l in a <==> l in b
    {
      assert l in multiset(a) <==> l in multiset(b);
    }
  }

  lemma BuiltHeader(exec: Graph, g: Graph, start: Option<nat>, rpo: seq<nat>, raw: seq<Loop>, h: nat) returns (i: nat)
    requires Built(exec, g, start, rpo, raw) && IsHeader(exec, g, rpo, h)
    ensures i < |raw| && raw[i].header == h
  {
    i := ListedHeader(exec, g, rpo, raw, h);
  }

  /** Reachable or not, a block in some loop is given a loop of greatest depth. */
  lemma InnerCovers(exec: Graph, g: Graph, start: Option<nat>, rpo: seq<nat>, raw: seq<Loop>, loops: seq<Loop>,
                    inner: map<nat, Loop>, b: nat)
    requires Built(exec, g, start, rpo, raw) && |loops| == |raw| && InnermostOk(loops, inner)
    requires forall i :: 0 <= i < |raw| ==> loops[i].body == raw[i].body && loops[i].header == raw[i].header
    requires forall i :: 0 <= i < |raw| ==> Finished(exec, g, rpo, loops[i])
    ensures b in inner <==> Around(exec, g, rpo, b) != {}
    ensures b in inner ==> forall h :: h in Around(exec, g, rpo, b) ==> |Around(exec, g, rpo, h)| <= inner[b].depth
    ensures b in inner ==> inner[b] in loops && b in inner[b].body
  {
    hide LoopOk, IsHeader, InNatural, IsRpo;
    forall h | h in Around(exec, g, rpo, b)
      ensures b in inner && |Around(exec, g, rpo, h)| <= inner[b].depth
    {
      var i := ListedHeader(exec, g, rpo, raw, h);
      BodyIsNatural(exec, g, rpo, loops[i], b);
      assert b in loops[i].body;
    }
    if b in inner {
      var l := inner[b];
      BodyIsNatural(exec, g, rpo, l, b);
      assert l.header in Around(exec, g, rpo, b);
    }
  }

  lemma NestedExactly(exec: Graph, g: Graph, start: Option<nat>, rpo: seq<nat>, raw: seq<Loop>, loops: seq<Loop>)
    requires Built(exec, g, start, rpo, raw)
    requires forall l :: l in loops ==> Finished(exec, g, rpo, l)
    requires forall h :: IsHeader(exec, g, rpo, h) ==> exists l :: l in loops && l.header == h
    ensures AllNested(loops) <==> !AnyStraddles(exec, g, rpo)
  {
    hide LoopOk, IsHeader, Straddles, Nested, IsRpo;
    forall a, b | a in loops && b in loops && a.header != b.header
      ensures Nested(a.body, b.body) <==> !exists u :: Straddles(exec, g, rpo, a.header, b.header, u)
      ensures IsHeader(exec, g, rpo, a.header) && IsHeader(exec, g, rpo, b.header)
    {
      DisjointOrNestedExactly(exec, g, start, rpo, a, b);
      BodyIsNatural(exec, g, rpo, a, 0);
      BodyIsNatural(exec, g, rpo, b, 0);
    }
    forall h1, h2, u | IsHeader(exec, g, rpo, h1) && IsHeader(exec, g, rpo, h2) && h1 != h2 && Straddles(exec, g, rpo, h1, h2, u)
      ensures !AllNested(loops)
    {
      var a :| a in loops && a.header == h1;
      var b :| b in loops && b.header == h2;
      assert !Nested(a.body, b.body);
    }
  }

  /** The depth map: a block is in it exactly when some natural loop contains it, and
      its depth is the greatest of those loops' depths. That is the number of natural
      loops around the block, always when it is reachable, and otherwise exactly when
      it straddles no two of them. */
  method LoopDepth(exec: Graph, c: CFG, d: DomTree) returns (depth: map<nat, nat>)
    requires c.Valid() && WellFormed(c.g) && (c.start.Some? ==> c.start.value < |c.g|)
    requires IsDomTree(c.g, c.rpo, d) && SubGraph(exec, c.g) && |exec| == |c.g|
    ensures forall b :: b in depth <==> Around(exec, c.g, c.rpo, b) != {}
    ensures forall b :: b in depth ==> exists h :: h in Around(exec, c.g, c.rpo, b) && depth[b] == |Around(exec, c.g, c.rpo, h)|
    ensures forall b, h :: b in depth && h in Around(exec, c.g, c.rpo, b) ==> |Around(exec, c.g, c.rpo, h)| <= depth[b]
    ensures forall b :: b in c.rpo ==> (if b in depth then depth[b] else 0) == |Around(exec, c.g, c.rpo, b)|
    ensures forall b :: b in depth ==> (depth[b] == |Around(exec, c.g, c.rpo, b)| <==> !BetweenLoops(exec, c.g, c.rpo, b))
  {
    var f := BuildForest(exec, c, d);
    depth := map b | b in f.inner :: f.inner[b].depth;
    hide ForestOk;
    forall b
      ensures b in depth <==> Around(exec, c.g, c.rpo, b) != {}
      ensures b in depth ==> exists h :: h in Around(exec, c.g, c.rpo, b) && depth[b] == |Around(exec, c.g, c.rpo, h)|
      ensures b in depth ==> forall h :: h in Around(exec, c.g, c.rpo, b) ==> |Around(exec, c.g, c.rpo, h)| <= depth[b]
      ensures b in c.rpo && b in depth ==> depth[b] == |Around(exec, c.g, c.rpo, b)|
      ensures b in depth ==> (depth[b] == |Around(exec, c.g, c.rpo, b)| <==> !BetweenLoops(exec, c.g, c.rpo, b))
    {
      InnerMeans(exec, c.g, c.rpo, f, b);
      if b in depth {
        DepthExactly(exec, c.g, c.start, c.rpo, f, b);
      }
    }
  }

  lemma InnerMeans(exec: Graph, g: Graph, rpo: seq<nat>, f: LoopForest, b: nat)
    requires ForestOk(exec, g, rpo, f)
    ensures InnerAt(exec, g, rpo, f, b)
    ensures b in f.inner ==> exists h :: h in Around(exec, g, rpo, b) && f.inner[b].depth == |Around(exec, g, rpo, h)|
  {
    hide AllNested, AnyStraddles, IsHeader, InNatural, LoopOk;
    assert InnerAt(exec, g, rpo, f, b);
    if b in f.inner {
      var l := f.inner[b];
      assert Finished(exec, g, rpo, l);
      FinishedNatural(exec, g, rpo, l, b);
    }
  }

  lemma FinishedNatural(exec: Graph, g: Graph, rpo: seq<nat>, l: Loop, b: nat)
    requires Finished(exec, g, rpo, l) && b in l.body
    ensures l.header in Around(exec, g, rpo, b) && l.depth == |Around(exec, g, rpo, l.header)|
  {
    BodyIsNatural(exec, g, rpo, l, b);
  }

  // ----- the depth of an unreachable block -----

  /** Two loops around b, neither inside the other, that b enters below their headers. */
  ghost predicate BetweenLoops(exec: Graph, g: Graph, rpo: seq<nat>, b: nat) {
    exists h1, h2 :: h1 in Around(exec, g, rpo, b) && h2 in Around(exec, g, rpo, b) && h1 != h2 && Straddles(exec, g, rpo, h1, h2, b)
  }

  lemma LoopOf(exec: Graph, g: Graph, rpo: seq<nat>, f: LoopForest, h: nat) returns (l: Loop)
    requires ForestOk(exec, g, rpo, f) && IsHeader(exec, g, rpo, h)
    ensures LoopOk(exec, g, rpo, l) && l.header == h
    ensures forall b :: b in l.body <==> InNatural(exec, g, rpo, h, b)
  {
    hide AllNested, AnyStraddles, IsHeader, InNatural, InnerAt;
    l :| l in f.loops && l.header == h;
    assert Finished(exec, g, rpo, l);
    forall b
      ensures b in l.body <==> InNatural(exec, g, rpo, h, b)
    {
      BodyIsNatural(exec, g, rpo, l, b);
    }
  }

  /** The loops around a header are around everything in its loop. */
  lemma AroundInner(exec: Graph, g: Graph, start: Option<nat>, rpo: seq<nat>, f: LoopForest, h: nat, b: nat)
    requires SubGraph(exec, g) && IsRpo(g, start, rpo) && ForestOk(exec, g, rpo, f) && h in Around(exec, g, rpo, b)
    ensures Around(exec, g, rpo, h) <= Around(exec, g, rpo, b) && h in Around(exec, g, rpo, h)
  {
    hide ForestOk, IsRpo, LoopOk, IsHeader;
    var a := LoopOf(exec, g, rpo, f, h);
    forall k | k in Around(exec, g, rpo, h)
      ensures k in Around(exec, g, rpo, b)
    {
      var c := LoopOf(exec, g, rpo, f, k);
      if k != h {
        HeldHeader(exec, g, start, rpo, a, c);
      }
    }
  }

  /** Of two loops around b, one holds the other's header, unless b straddles them. */
  lemma AroundOrdered(exec: Graph, g: Graph, start: Option<nat>, rpo: seq<nat>, f: LoopForest, h1: nat, h2: nat, b: nat)
    requires SubGraph(exec, g) && IsRpo(g, start, rpo) && ForestOk(exec, g, rpo, f) && h1 != h2
    requires h1 in Around(exec, g, rpo, b) && h2 in Around(exec, g, rpo, b)
    ensures Straddles(exec, g, rpo, h1, h2, b) ||
            h1 in Around(exec, g, rpo, h2) || h2 in Around(exec, g, rpo, h1)
    ensures b in rpo ==> h1 in Around(exec, g, rpo, h2) || h2 in Around(exec, g, rpo, h1)
  {
    hide ForestOk, IsRpo, LoopOk, ReachesLatch;
    var a1 := LoopOf(exec, g, rpo, f, h1);
    var a2 := LoopOf(exec, g, rpo, f, h2);
    if b in rpo {
      SharedBlock(exec, g, start, rpo, a1, a2, b);
    }
  }

  /** The depth given to a block is the number of loops around it exactly when it
      straddles no two of them. */
  lemma DepthExactly(exec: Graph, g: Graph, start: Option<nat>, rpo: seq<nat>, f: LoopForest, b: nat)
    requires SubGraph(exec, g) && IsRpo(g, start, rpo) && ForestOk(exec, g, rpo, f) && b in f.inner
    ensures f.inner[b].depth == |Around(exec, g, rpo, b)| <==> !BetweenLoops(exec, g, rpo, b)
  {
    hide ForestOk, IsRpo, LoopOk, Straddles, Around;
    InnerMeans(exec, g, rpo, f, b);
    var all := Around(exec, g, rpo, b);
    var h :| h in all && f.inner[b].depth == |Around(exec, g, rpo, h)|;
    AroundInner(exec, g, start, rpo, f, h, b);
    if Around(exec, g, rpo, h) == all {
      forall h1, h2 | h1 in all && h2 in all && h1 != h2
        ensures !Straddles(exec, g, rpo, h1, h2, b)
      {
        AroundOrdered(exec, g, start, rpo, f, h1, h2, h);
        HeldApart(exec, g, rpo, h1, h2, b);
      }
    } else {
      SmallerAround(exec, g, start, rpo, f, h, b);
    }
  }

  lemma HeldApart(exec: Graph, g: Graph, rpo: seq<nat>, h1: nat, h2: nat, b: nat)
    requires h1 != h2 && (h1 in Around(exec, g, rpo, h2) || h2 in Around(exec, g, rpo, h1))
    ensures !Straddles(exec, g, rpo, h1, h2, b)
  {
  }

  /** A deepest loop around b that misses another one is straddled with it. */
  lemma SmallerAround(exec: Graph, g: Graph, start: Option<nat>, rpo: seq<nat>, f: LoopForest, h: nat, b: nat)
    requires SubGraph(exec, g) && IsRpo(g, start, rpo) && ForestOk(exec, g, rpo, f) && h in Around(exec, g, rpo, b)
    requires forall k :: k in Around(exec, g, rpo, b) ==> |Around(exec, g, rpo, k)| <= |Around(exec, g, rpo, h)|
    requires Around(exec, g, rpo, h) < Around(exec, g, rpo, b)
    ensures |Around(exec, g, rpo, h)| < |Around(exec, g, rpo, b)| && BetweenLoops(exec, g, rpo, b)
  {
    hide ForestOk, IsRpo, Straddles, Around;
    var inner, all := Around(exec, g, rpo, h), Around(exec, g, rpo, b);
    AroundInner(exec, g, start, rpo, f, h, b);
    assert !(all <= inner);
    var k :| k in all && k !in inner;
    SubsetSize(inner + {k}, all);
    AroundOrdered(exec, g, start, rpo, f, h, k, b);
    if h in Around(exec, g, rpo, k) {
      AroundInner(exec, g, start, rpo, f, h, k);
      AroundInner(exec, g, start, rpo, f, k, b);
      SubsetSize(inner + {k}, Around(exec, g, rpo, k));
    }
  }
}
