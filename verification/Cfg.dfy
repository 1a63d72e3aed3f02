/** The control-flow graph: predecessor lists and the reverse postorder
    (analysis/cfg.go). */
module Cfg {
  import opened Graphs

  /** Executable successors followed by the analysis-only ones, block by block. */
  function Full(exec: Graph, synthetic: Graph): (g: Graph)
    requires |exec| == |synthetic|
    ensures |g| == |exec|
    ensures forall a: nat, b: nat :: Edge(g, a, b) <==> Edge(exec, a, b) || Edge(synthetic, a, b)
  {
    seq(|exec|, i requires 0 <= i < |exec| => exec[i] + synthetic[i])
  }

  lemma FullWellFormed(exec: Graph, synthetic: Graph)
    requires |exec| == |synthetic| && WellFormed(exec) && WellFormed(synthetic)
    ensures WellFormed(Full(exec, synthetic))
  {
    var g: Graph := Full(exec, synthetic);
    forall b, k | 0 <= b < |g| && 0 <= k < |g[b]| && g[b][k].Some?
      ensures g[b][k].value < |g|
    {
      var s := g[b][k].value;
      assert Edge(g, b, s);
      if Edge(exec, b, s) {
        EdgeInRange(exec, b, s);
      } else {
        EdgeInRange(synthetic, b, s);
      }
    }
  }

  /** Predecessor lists: exactly the edges' sources, once each, in block order. */
  ghost predicate IsPreds(g: Graph, preds: seq<seq<nat>>) {
    && |preds| == |g|
    && (forall s: nat, b: nat :: s < |g| ==> (b in preds[s] <==> Edge(g, b, s)))
    && (forall s, i, j :: 0 <= s < |g| && 0 <= i < j < |preds[s]| ==> preds[s][i] < preds[s][j])
  }

  /** What the reverse postorder promises its users. */
  ghost predicate IsRpo(g: Graph, start: Option<nat>, rpo: seq<nat>) {
    && Distinct(rpo)
    && (forall b :: b in rpo <==> start.Some? && Reach(g, start.value, b))
    && (start.Some? ==> rpo != [] && rpo[0] == start.value)
    && (forall i :: 0 < i < |rpo| ==> EarlierPred(g, rpo, i))
    && (forall i, j :: 0 <= j <= i < |rpo| && Edge(g, rpo[i], rpo[j]) ==> Reach(g, rpo[j], rpo[i]))
  }

  /** Block i of the order has a predecessor placed before it. */
  ghost predicate EarlierPred(g: Graph, rpo: seq<nat>, i: nat)
    requires i < |rpo|
  {
    exists j :: 0 <= j < i && Edge(g, rpo[j], rpo[i])
  }

  ghost predicate IsNumbering(rpo: seq<nat>, num: map<nat, int>) {
    && (forall b :: b in num <==> b in rpo)
    && (forall i :: 0 <= i < |rpo| ==> num[rpo[i]] == i)
  }

  ghost predicate Acyclic(g: Graph) {
    forall a: nat, b: nat :: Edge(g, a, b) ==> !Reach(g, b, a)
  }

  /** On an acyclic graph the order is topological. */
  lemma AcyclicRpoIsTopological(g: Graph, start: Option<nat>, rpo: seq<nat>, i: nat, j: nat)
    requires IsRpo(g, start, rpo) && Acyclic(g)
    requires i < |rpo| && j < |rpo| && Edge(g, rpo[i], rpo[j])
    ensures i < j
  {
    assert !Reach(g, rpo[j], rpo[i]);
  }

  method FillPreds(g: Graph) returns (preds: seq<seq<nat>>)
    requires WellFormed(g)
    ensures IsPreds(g, preds)
  {
    preds := seq(|g|, _ => []);
    for b := 0 to |g|
      invariant |preds| == |g|
      invariant forall s: nat, x: nat :: s < |g| ==> (x in preds[s] <==> x < b && Edge(g, x, s))
      invariant forall s, i, j :: 0 <= s < |g| && 0 <= i < j < |preds[s]| ==> preds[s][i] < preds[s][j]
    {
      for k := 0 to |g[b]|
        invariant |preds| == |g|
        invariant forall s: nat, x: nat :: s < |g| && x != b ==> (x in preds[s] <==> x < b && Edge(g, x, s))
        invariant forall s: nat :: s < |g| ==> (b in preds[s] <==> Some(s) in g[b][..k])
        invariant forall s, i, j :: 0 <= s < |g| && 0 <= i < j < |preds[s]| ==> preds[s][i] < preds[s][j]
      {
        ghost var before := preds;
        assert g[b][..k + 1] == g[b][..k] + [g[b][k]];
        if g[b][k].Some? {
          var s := g[b][k].value;
          if !(|preds[s]| > 0 && preds[s][|preds[s]| - 1] == b) {
            forall i | 0 <= i < |preds[s]|
              ensures preds[s][i] < b
            {
              assert preds[s][i] in preds[s];
              if preds[s][i] == b {
                LastEntry(preds[s], b);
              }
            }
            preds := preds[s := preds[s] + [b]];
            assert preds[s] == before[s] + [b];
          } else {
            assert b in preds[s];
          }
        }
      }
      assert g[b][..|g[b]|] == g[b];
    }
  }

  /** The duplicate test of fillPreds: the block being walked is recorded in an
      ascending list only as its last entry. */
  lemma LastEntry(s: seq<nat>, b: nat)
    requires forall i, j :: 0 <= i < j < |s| ==> s[i] < s[j]
    requires b in s && forall x :: x in s ==> x <= b
    ensures s[|s| - 1] == b
  {
    var i :| 0 <= i < |s| && s[i] == b;
    assert s[|s| - 1] in s;
  }

  datatype Frame = Frame(block: nat, next: nat)

  ghost predicate SameBlocks(stack: seq<Frame>, bs: seq<nat>) {
    |bs| == |stack| && forall i :: 0 <= i < |bs| ==> bs[i] == stack[i].block
  }

  /** Every slot a frame has passed leads to a seen block. */
  ghost predicate PassedSeen(g: Graph, seen: set<nat>, stack: seq<Frame>) {
    forall i :: 0 <= i < |stack| ==> FramePassed(g, seen, stack[i])
  }

  ghost predicate FramePassed(g: Graph, seen: set<nat>, f: Frame) {
    && f.block < |g| && f.next <= |g[f.block]|
    && forall k :: 0 <= k < f.next && g[f.block][k].Some? ==> g[f.block][k].value in seen
  }

  /** A finished block's successors are seen, and one that finished no earlier
      than the block reaches it. */
  ghost predicate Finished(g: Graph, seen: set<nat>, post: seq<nat>) {
    forall i, s: nat :: 0 <= i < |post| && Edge(g, post[i], s) ==> FinishedAt(g, seen, post, i, s)
  }

  ghost predicate FinishedAt(g: Graph, seen: set<nat>, post: seq<nat>, i: nat, s: nat)
    requires i < |post|
  {
    s in seen && (s in post[..i] || Reach(g, s, post[i]))
  }

  /** Each finished block but the start was entered from a block that is still on
      the stack or finished later. */
  ghost predicate Entered(g: Graph, start: nat, bs: seq<nat>, post: seq<nat>, parent: map<nat, nat>) {
    forall i :: 0 <= i < |post| ==> EnteredAt(g, start, bs, post, parent, i)
  }

  ghost predicate EnteredAt(g: Graph, start: nat, bs: seq<nat>, post: seq<nat>, parent: map<nat, nat>, i: nat)
    requires i < |post|
  {
    post[i] == start ||
    (post[i] in parent && Edge(g, parent[post[i]], post[i]) &&
     (parent[post[i]] in bs || parent[post[i]] in post[i + 1..]))
  }

  /** The stack is a path from the start, and with the finished blocks it holds
      every seen block once. */
  ghost predicate Shape(g: Graph, start: nat, seen: set<nat>, bs: seq<nat>, post: seq<nat>) {
    && (bs != [] ==> IsPath(g, bs) && bs[0] == start)
    && (bs == [] ==> post != [] && post[|post| - 1] == start)
    && Distinct(bs + post)
    && (forall b :: b in seen <==> b in bs || b in post)
    && (forall b :: b in seen ==> b < |g| && Reach(g, start, b))
  }

  lemma PushShape(g: Graph, start: nat, seen: set<nat>, bs: seq<nat>, post: seq<nat>, s: nat)
    requires WellFormed(g) && Shape(g, start, seen, bs, post)
    requires bs != [] && s !in seen && Edge(g, bs[|bs| - 1], s)
    ensures Shape(g, start, seen + {s}, bs + [s], post)
  {
    var top := bs[|bs| - 1];
    EdgeInRange(g, top, s);
    ReachStep(g, start, top, s);
    PathExtend(g, bs, start, top, s);
    var all, all' := bs + post, bs + [s] + post;
    forall i, j | 0 <= i < j < |all'|
      ensures all'[i] != all'[j]
    {
      var i0 := if i < |bs| then i else i - 1;
      var j0 := if j < |bs| then j else j - 1;
      assert i != |bs| ==> all'[i] == all[i0] && all[i0] in all;
      assert j != |bs| ==> all'[j] == all[j0] && all[j0] in all;
    }
  }

  lemma PushEntered(g: Graph, start: nat, bs: seq<nat>, post: seq<nat>, parent: map<nat, nat>, s: nat, p: nat)
    requires Entered(g, start, bs, post, parent) && s !in post
    ensures Entered(g, start, bs + [s], post, parent[s := p])
  {
    var bs', parent' := bs + [s], parent[s := p];
    forall i | 0 <= i < |post|
      ensures EnteredAt(g, start, bs', post, parent', i)
    {
      assert EnteredAt(g, start, bs, post, parent, i);
      assert post[i] in post;
    }
  }

  lemma PopShape(g: Graph, start: nat, seen: set<nat>, bs: seq<nat>, post: seq<nat>)
    requires Shape(g, start, seen, bs, post) && bs != []
    ensures Shape(g, start, seen, bs[..|bs| - 1], post + [bs[|bs| - 1]])
  {
    var top := |bs| - 1;
    var b := bs[top];
    var bs', post' := bs[..top], post + [b];
    assert bs == bs' + [b];
    if bs' != [] {
      PathPrefix(g, bs, top - 1);
      assert bs[..top - 1 + 1] == bs';
    }
    var all, all' := bs + post, bs' + post';
    forall i, j | 0 <= i < j < |all'|
      ensures all'[i] != all'[j]
    {
      var i0 := if i < top then i else if i == |all'| - 1 then top else i + 1;
      var j0 := if j < top then j else if j == |all'| - 1 then top else j + 1;
      assert all'[i] == all[i0] && all'[j] == all[j0] && i0 != j0;
    }
  }

  lemma PopFinished(g: Graph, start: nat, seen: set<nat>, bs: seq<nat>, post: seq<nat>)
    requires Shape(g, start, seen, bs, post) && bs != [] && Finished(g, seen, post)
    requires forall s: nat :: Edge(g, bs[|bs| - 1], s) ==> s in seen
    ensures Finished(g, seen, post + [bs[|bs| - 1]])
  {
    var top := |bs| - 1;
    var b := bs[top];
    var post' := post + [b];
    forall i, s: nat | 0 <= i < |post'| && Edge(g, post'[i], s)
      ensures FinishedAt(g, seen, post', i, s)
    {
      if i == |post| {
        assert post'[..i] == post;
        if s in bs {
          var k :| 0 <= k < |bs| && bs[k] == s;
          PathSuffix(g, bs, k);
          assert Reach(g, s, b);
        }
      } else {
        assert FinishedAt(g, seen, post, i, s);
        assert post'[..i] == post[..i];
      }
    }
  }

  lemma PopEntered(g: Graph, start: nat, bs: seq<nat>, post: seq<nat>, parent: map<nat, nat>)
    requires IsPath(g, bs) && bs[0] == start && Entered(g, start, bs, post, parent)
    requires |bs| > 1 ==> bs[|bs| - 1] in parent && parent[bs[|bs| - 1]] == bs[|bs| - 2]
    ensures Entered(g, start, bs[..|bs| - 1], post + [bs[|bs| - 1]], parent)
  {
    var top := |bs| - 1;
    var b := bs[top];
    var post' := post + [b];
    forall i | 0 <= i < |post'|
      ensures EnteredAt(g, start, bs[..top], post', parent, i)
    {
      if i < |post| {
        assert EnteredAt(g, start, bs, post, parent, i);
        assert post'[i + 1..] == post[i + 1..] + [b];
        assert bs == bs[..top] + [b];
      } else if top > 0 {
        assert Edge(g, bs[top - 1], bs[top]);
        assert bs[..top][top - 1] in bs[..top];
      }
    }
  }

  ghost predicate IsReverse(s: seq<nat>, r: seq<nat>) {
    |r| == |s| && forall i :: 0 <= i < |s| ==> r[i] == s[|s| - 1 - i]
  }

  lemma ReversedMembers(post: seq<nat>, rpo: seq<nat>, b: nat)
    requires IsReverse(post, rpo)
    ensures b in rpo <==> b in post
  {
    if b in post {
      var k :| 0 <= k < |post| && post[k] == b;
      assert rpo[|post| - 1 - k] == b;
    }
  }

  lemma ReachedIsFinished(g: Graph, start: nat, seen: set<nat>, post: seq<nat>, b: nat)
    requires Shape(g, start, seen, [], post) && Finished(g, seen, post)
    ensures b in post <==> Reach(g, start, b)
  {
    if Reach(g, start, b) {
      forall x, y | x in seen && Edge(g, x, y)
        ensures y in seen
      {
        var i :| 0 <= i < |post| && post[i] == x;
        assert FinishedAt(g, seen, post, i, y);
      }
      assert post[|post| - 1] in post;
      ClosedHoldsReach(g, seen, start, b);
    }
  }

  lemma EnteredFromEarlier(g: Graph, start: nat, post: seq<nat>, parent: map<nat, nat>, rpo: seq<nat>, i: nat)
    requires Entered(g, start, [], post, parent) && IsReverse(post, rpo) && Distinct(post)
    requires 0 < i < |rpo| && post[|post| - 1] == start
    ensures EarlierPred(g, rpo, i)
  {
    var k := |post| - 1 - i;
    assert EnteredAt(g, start, [], post, parent, k);
    assert rpo[i] == post[k] != post[|post| - 1];
    var m :| 0 <= m < |post[k + 1..]| && post[k + 1..][m] == parent[post[k]];
    assert rpo[i - 1 - m] == post[k + 1 + m];
  }

  lemma RetreatingReaches(g: Graph, seen: set<nat>, post: seq<nat>, rpo: seq<nat>, i: nat, j: nat)
    requires Finished(g, seen, post) && IsReverse(post, rpo) && Distinct(post)
    requires j <= i < |rpo| && Edge(g, rpo[i], rpo[j])
    ensures Reach(g, rpo[j], rpo[i])
  {
    var k, l := |post| - 1 - i, |post| - 1 - j;
    assert rpo[i] == post[k] && rpo[j] == post[l];
    var s := post[l];
    assert FinishedAt(g, seen, post, k, s);
    assert s !in post[..k];
    }

  /** When the walk ends, the finished blocks reversed are a reverse postorder. */
  lemma FinishedIsRpo(g: Graph, start: nat, seen: set<nat>, post: seq<nat>, parent: map<nat, nat>, rpo: seq<nat>)
    requires Shape(g, start, seen, [], post) && Finished(g, seen, post)
    requires Entered(g, start, [], post, parent) && IsReverse(post, rpo)
    ensures IsRpo(g, Some(start), rpo)
  {
    assert [] + post == post;
    forall b: nat
      ensures b in rpo <==> Reach(g, start, b)
    {
      ReversedMembers(post, rpo, b);
      ReachedIsFinished(g, start, seen, post, b);
    }
    forall i | 0 < i < |rpo|
      ensures EarlierPred(g, rpo, i)
    {
      EnteredFromEarlier(g, start, post, parent, rpo, i);
    }
    forall i, j | 0 <= j <= i < |rpo| && Edge(g, rpo[i], rpo[j])
      ensures Reach(g, rpo[j], rpo[i])
    {
      RetreatingReaches(g, seen, post, rpo, i, j);
    }
  }

  class CFG {
    const g: Graph
    const start: Option<nat>
    var preds: seq<seq<nat>>
    var rpo: seq<nat>
    var num: map<nat, int>

    ghost predicate Valid() reads this {
      IsPreds(g, preds) && IsRpo(g, start, rpo) && IsNumbering(rpo, num)
    }

    constructor Build(exec: Graph, synthetic: Graph, start: Option<nat>)
      requires |exec| == |synthetic| && WellFormed(exec) && WellFormed(synthetic)
      requires start.Some? ==> start.value < |exec|
      ensures g == Full(exec, synthetic) && this.start == start && Valid()
    {
      this.g, this.start, this.rpo, this.num := Full(exec, synthetic), start, [], map[];
      new;
      FullWellFormed(exec, synthetic);
      preds := FillPreds(g);
      ComputeRPO();
    }

    method ComputeRPO()
      requires WellFormed(g) && (start.Some? ==> start.value < |g|) && num == map[]
      modifies this`rpo, this`num
      ensures IsRpo(g, start, rpo) && IsNumbering(rpo, num)
    {
      var post: seq<nat> := [];
      if start.Some? {
        ghost var parent;
        post, num, parent := Walk(g, start.value);
        ghost var finished := post;
        post := Reverse(post);
        FinishedIsRpo(g, start.value, num.Keys, finished, parent, post);
      }
      rpo := post;
      num := Number(post, num);
    }
  }

  /** Everything the walk keeps, at each turn of its outer loop. */
  ghost predicate WalkOk(g: Graph, s0: nat, seen: set<nat>, stack: seq<Frame>, bs: seq<nat>, post: seq<nat>, parent: map<nat, nat>) {
    && SameBlocks(stack, bs) && Shape(g, s0, seen, bs, post) && PassedSeen(g, seen, stack)
    && Finished(g, seen, post) && Entered(g, s0, bs, post, parent) && ParentsOf(bs, parent)
  }

  lemma StartKeeps(g: Graph, s0: nat)
    requires s0 < |g|
    ensures WalkOk(g, s0, {s0}, [Frame(s0, 0)], [s0], [], map[])
  {
    ReachSelf(g, s0);
  }

  lemma PushKeeps(g: Graph, s0: nat, seen: set<nat>, stack: seq<Frame>, bs: seq<nat>, post: seq<nat>, parent: map<nat, nat>,
                  next: nat, s: nat)
    requires WellFormed(g) && WalkOk(g, s0, seen, stack, bs, post, parent)
    requires stack != [] && s !in seen && Edge(g, bs[|bs| - 1], s)
    requires FramePassed(g, seen + {s}, Frame(bs[|bs| - 1], next))
    ensures WalkOk(g, s0, seen + {s}, stack[|stack| - 1 := Frame(bs[|bs| - 1], next)] + [Frame(s, 0)],
                   bs + [s], post, parent[s := bs[|bs| - 1]])
  {
    PushShape(g, s0, seen, bs, post, s);
    PushEntered(g, s0, bs, post, parent, s, bs[|bs| - 1]);
    EdgeInRange(g, bs[|bs| - 1], s);
    var stack' := stack[|stack| - 1 := Frame(bs[|bs| - 1], next)] + [Frame(s, 0)];
    forall i | 0 <= i < |stack'|
      ensures FramePassed(g, seen + {s}, stack'[i])
    {
      assert i < |stack| ==> FramePassed(g, seen, stack[i]);
    }
    forall i, t: nat | 0 <= i < |post| && Edge(g, post[i], t)
      ensures FinishedAt(g, seen + {s}, post, i, t)
    {
      assert FinishedAt(g, seen, post, i, t);
    }
    assert s !in bs;
    assert ParentsOf(bs + [s], parent[s := bs[|bs| - 1]]);
  }

  lemma PopKeeps(g: Graph, s0: nat, seen: set<nat>, stack: seq<Frame>, bs: seq<nat>, post: seq<nat>, parent: map<nat, nat>)
    requires WellFormed(g) && WalkOk(g, s0, seen, stack, bs, post, parent)
    requires stack != [] && FramePassed(g, seen, Frame(bs[|bs| - 1], |g[bs[|bs| - 1]]|))
    ensures WalkOk(g, s0, seen, stack[..|stack| - 1], bs[..|bs| - 1], post + [bs[|bs| - 1]], parent)
  {
    var top := |bs| - 1;
    PopShape(g, s0, seen, bs, post);
    PopFinished(g, s0, seen, bs, post);
    assert top > 0 ==> ParentIs(parent, bs[top], bs[top - 1]);
    PopEntered(g, s0, bs, post, parent);
    assert ParentsOf(bs[..top], parent);
  }

  /** The depth-first walk itself: the blocks in postorder, and the seen set as the
      numbering's keys. */
  method Walk(g: Graph, s0: nat) returns (post: seq<nat>, num: map<nat, int>, ghost parent: map<nat, nat>)
    requires WellFormed(g) && s0 < |g|
    ensures WalkOk(g, s0, num.Keys, [], [], post, parent)
  {
    hide WalkOk, FramePassed;
    post, num, parent := [], map[s0 := -1], map[];
    var stack := [Frame(s0, 0)];
    ghost var bs, unseen := [s0], Upto(|g|) - {s0};
    StartKeeps(g, s0);
    assert num.Keys == {s0};
    while |stack| > 0
      invariant WalkOk(g, s0, num.Keys, stack, bs, post, parent)
      invariant unseen == Upto(|g|) - num.Keys && |bs| == |stack|
      decreases unseen, |stack|
    {
      var top := |stack| - 1;
      var b := stack[top].block;
      TopFrame(g, s0, num.Keys, stack, bs, post, parent);
      var next, found := NextUnseen(g, stack[top], num);
      if found.Some? {
        var s := found.value;
        PushKeeps(g, s0, num.Keys, stack, bs, post, parent, next, s);
        EdgeInRange(g, b, s);
        assert num[s := -1].Keys == num.Keys + {s};
        stack := stack[top := Frame(b, next)] + [Frame(s, 0)];
        num := num[s := -1];
        bs, parent, unseen := bs + [s], parent[s := b], unseen - {s};
        continue;
      }
      PopKeeps(g, s0, num.Keys, stack, bs, post, parent);
      post := post + [b];
      stack := stack[..top];
      bs := bs[..top];
    }
    assert stack == [] && bs == [];
  }

  lemma TopFrame(g: Graph, s0: nat, seen: set<nat>, stack: seq<Frame>, bs: seq<nat>, post: seq<nat>, parent: map<nat, nat>)
    requires WalkOk(g, s0, seen, stack, bs, post, parent) && stack != []
    ensures |bs| == |stack| && stack[|stack| - 1].block == bs[|bs| - 1] && FramePassed(g, seen, stack[|stack| - 1])
    ensures stack[|stack| - 1].block < |g|
  {
    hide Shape, Finished, Entered;
  }

  ghost predicate ParentsOf(bs: seq<nat>, parent: map<nat, nat>) {
    forall i, j :: 0 <= i && j == i + 1 && j < |bs| ==> ParentIs(parent, bs[j], bs[i])
  }

  ghost predicate ParentIs(parent: map<nat, nat>, b: nat, p: nat) {
    b in parent && parent[b] == p
  }

  /** The inner scan: advances a frame past seen and nil successors to the first
      unseen one, if any. */
  method NextUnseen(g: Graph, f: Frame, num: map<nat, int>) returns (next: nat, found: Option<nat>)
    requires FramePassed(g, num.Keys, f)
    ensures f.next <= next <= |g[f.block]|
    ensures found.None? ==> FramePassed(g, num.Keys, Frame(f.block, next)) && next == |g[f.block]|
    ensures found.Some? ==> found.value !in num && Edge(g, f.block, found.value)
    ensures found.Some? ==> FramePassed(g, num.Keys + {found.value}, Frame(f.block, next))
  {
    next, found := f.next, None;
    while next < |g[f.block]|
      invariant f.next <= next <= |g[f.block]|
      invariant FramePassed(g, num.Keys, Frame(f.block, next))
    {
      var slot := g[f.block][next];
      next := next + 1;
      if slot.None? || slot.value in num {
        continue;
      }
      found := slot;
      return;
    }
  }

  /** Overwrites the walk's visiting marks with the real indices. */
  method Number(rpo: seq<nat>, marks: map<nat, int>) returns (num: map<nat, int>)
    requires Distinct(rpo) && forall b :: b in marks <==> b in rpo
    ensures IsNumbering(rpo, num)
  {
    num := marks;
    for i := 0 to |rpo|
      invariant num.Keys == marks.Keys
      invariant forall k :: 0 <= k < i ==> num[rpo[k]] == k
    {
      num := num[rpo[i] := i];
    }
  }

  /** Two cursors swapping from the ends inward. */
  method Reverse(s: seq<nat>) returns (r: seq<nat>)
    ensures IsReverse(s, r)
    ensures forall b: nat :: b in r <==> b in s
  {
    r := s;
    var i, j := 0, |r| - 1;
    while i < j
      invariant 0 <= i <= |r| == |s| && j == |r| - 1 - i
      invariant forall k :: 0 <= k < i || j < k < |r| ==> r[k] == s[|r| - 1 - k]
      invariant forall k :: i <= k <= j ==> r[k] == s[k]
    {
      r := r[i := r[j]][j := r[i]];
      i, j := i + 1, j - 1;
    }
    forall b: nat
      ensures b in r <==> b in s
    {
      ReversedMembers(s, r, b);
    }
  }
}
