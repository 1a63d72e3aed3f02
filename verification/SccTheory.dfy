/** The invariants of Tarjan's algorithm with an explicit stack (analysis/scc.go),
    over a snapshot of its state, and what each step does to them. */
module SccTheory {
  import opened Graphs

  datatype Frame = Frame(b: nat, si: nat)

  /** A snapshot: the numbering, the Tarjan stack, the depth-first frames, where on
      the stack each frame's block sits, and the blocks already in components. */
  datatype State = State(index: map<nat, nat>, low: map<nat, nat>, stack: seq<nat>, dfs: seq<Frame>,
                         pos: seq<nat>, done: set<nat>)

  ghost predicate IsScc(g: Graph, s: set<nat>) {
    && s != {}
    && (forall a, b :: a in s && b in s ==> Reach(g, a, b))
    && (forall a, b: nat :: a in s && Reach(g, a, b) && Reach(g, b, a) ==> b in s)
  }

  /** The numbered blocks are the stacked ones and the finished ones; numbers grow
      along the stack. */
  ghost predicate StackInv(st: State) {
    && (forall x :: x in st.index <==> x in st.stack || x in st.done)
    && (forall x :: x in st.stack ==> x !in st.done)
    && (forall i, k :: 0 <= i < k < |st.stack| ==> st.index[st.stack[i]] < st.index[st.stack[k]])
    && st.low.Keys == st.index.Keys
  }

  /** The frames sit on the stack in order, the first at the bottom. */
  ghost predicate FrameInv(g: Graph, st: State) {
    && |st.pos| == |st.dfs|
    && (st.dfs == [] ==> st.stack == [])
    && (st.dfs != [] ==> st.pos[0] == 0)
    && (forall j :: 0 <= j < |st.pos| ==> st.pos[j] < |st.stack| && st.stack[st.pos[j]] == st.dfs[j].b)
    && (forall i, j :: 0 <= i < j < |st.pos| ==> st.pos[i] < st.pos[j])
    && (forall j :: 0 <= j < |st.dfs| ==> st.dfs[j].b < |g| && st.dfs[j].si <= |g[st.dfs[j].b]|)
  }

  /** One past the last stack position of frame j's segment. */
  ghost function End(st: State, j: nat): nat {
    if j + 1 < |st.pos| then st.pos[j + 1] else |st.stack|
  }

  ghost predicate Segment(st: State, j: nat, k: nat) {
    j < |st.pos| && j < |st.dfs| && st.pos[j] <= k < End(st, j) && k < |st.stack|
  }

  /** A frame's block reaches everything stacked after it, and is reached by all of
      its segment. */
  ghost predicate ReachInv(g: Graph, st: State) {
    && (forall j, k :: 0 <= j < |st.dfs| && j < |st.pos| && st.pos[j] <= k < |st.stack| ==> Reach(g, st.dfs[j].b, st.stack[k]))
    && (forall j: nat, k: nat :: Segment(st, j, k) ==> Reach(g, st.stack[k], st.dfs[j].b))
  }

  /** The edge to y has been looked at: all edges of a block whose frame is gone, the
      passed slots of one whose frame is there. */
  ghost predicate Looked(g: Graph, st: State, j: nat, k: nat, y: nat)
    requires Segment(st, j, k)
  {
    st.stack[k] < |g| && exists x :: 0 <= x < |g[st.stack[k]]| && g[st.stack[k]][x] == Some(y) &&
                                     (k == st.pos[j] ==> x < st.dfs[j].si)
  }

  ghost predicate EdgeOk(st: State, j: nat, y: nat)
    requires j < |st.dfs|
  {
    y in st.index && st.dfs[j].b in st.low && (y in st.stack ==> st.low[st.dfs[j].b] <= st.index[y])
  }

  ghost predicate EdgeInv(g: Graph, st: State) {
    forall j: nat, k: nat, y: nat :: Segment(st, j, k) && Looked(g, st, j, k, y) ==> EdgeOk(st, j, y)
  }

  /** A frame's low number is that of a stacked block its block reaches. */
  ghost predicate LowAt(g: Graph, st: State, j: nat)
    requires j < |st.dfs|
  {
    var b := st.dfs[j].b;
    b in st.low && b in st.index && st.low[b] <= st.index[b] &&
    exists k :: 0 <= k < |st.stack| && st.stack[k] in st.index && st.index[st.stack[k]] == st.low[b] && Reach(g, b, st.stack[k])
  }

  ghost predicate LowInv(g: Graph, st: State) {
    forall j :: 0 <= j < |st.dfs| ==> LowAt(g, st, j)
  }

  ghost predicate DoneInv(g: Graph, st: State) {
    forall a, b :: a in st.done && Edge(g, a, b) ==> b in st.done
  }

  ghost predicate Inv(g: Graph, st: State) {
    StackInv(st) && FrameInv(g, st) && ReachInv(g, st) && EdgeInv(g, st) && LowInv(g, st) && DoneInv(g, st)
  }

  // ----- entering a block -----

  ghost function Push(st: State, s: nat, next: nat): State {
    State(st.index[s := next], st.low[s := next], st.stack + [s], st.dfs + [Frame(s, 0)], st.pos + [|st.stack|], st.done)
  }

  ghost predicate CanPush(g: Graph, st: State, s: nat, next: nat) {
    && s !in st.index && s < |g| && (forall x :: x in st.index ==> st.index[x] < next)
    && (st.dfs != [] ==> Edge(g, st.dfs[|st.dfs| - 1].b, s))
  }

  lemma PushStack(g: Graph, st: State, s: nat, next: nat)
    requires StackInv(st) && CanPush(g, st, s, next)
    ensures StackInv(Push(st, s, next))
  {
    var u := Push(st, s, next);
    forall i, k | 0 <= i < k < |u.stack|
      ensures u.index[u.stack[i]] < u.index[u.stack[k]]
    {
      assert st.stack[i] in st.stack;
      if k < |st.stack| {
        assert st.stack[k] in st.stack;
      }
    }
  }

  lemma PushFrames(g: Graph, st: State, s: nat, next: nat)
    requires FrameInv(g, st) && CanPush(g, st, s, next)
    ensures FrameInv(g, Push(st, s, next))
  {
  }

  lemma PushSegment(g: Graph, st: State, s: nat, next: nat, j: nat, k: nat)
    requires FrameInv(g, st) && Segment(Push(st, s, next), j, k)
    ensures if j < |st.dfs| then Segment(st, j, k) else j == |st.dfs| && k == |st.stack|
  {
  }

  lemma PushReach(g: Graph, st: State, s: nat, next: nat)
    requires FrameInv(g, st) && ReachInv(g, st) && CanPush(g, st, s, next)
    ensures ReachInv(g, Push(st, s, next))
  {
    var u := Push(st, s, next);
    forall j, k | 0 <= j < |u.dfs| && u.pos[j] <= k < |u.stack|
      ensures Reach(g, u.dfs[j].b, u.stack[k])
    {
      if j == |st.dfs| {
        ReachSelf(g, s);
      } else if k == |st.stack| {
        var m := |st.dfs| - 1;
        assert Reach(g, st.dfs[j].b, st.stack[st.pos[m]]);
        ReachStep(g, st.dfs[j].b, st.dfs[m].b, s);
      }
    }
    forall j: nat, k: nat | Segment(u, j, k)
      ensures Reach(g, u.stack[k], u.dfs[j].b)
    {
      PushSegment(g, st, s, next, j, k);
      if j == |st.dfs| {
        ReachSelf(g, s);
      }
    }
  }

  lemma PushEdges(g: Graph, st: State, s: nat, next: nat)
    requires StackInv(st) && FrameInv(g, st) && EdgeInv(g, st) && LowInv(g, st) && CanPush(g, st, s, next)
    ensures EdgeInv(g, Push(st, s, next))
  {
    var u := Push(st, s, next);
    forall j: nat, k: nat, y: nat | Segment(u, j, k) && Looked(g, u, j, k, y)
      ensures EdgeOk(u, j, y)
    {
      PushSegment(g, st, s, next, j, k);
      if j < |st.dfs| {
        assert Looked(g, st, j, k, y);
        assert EdgeOk(st, j, y) && LowAt(g, st, j);
      }
    }
  }

  lemma PushLow(g: Graph, st: State, s: nat, next: nat)
    requires StackInv(st) && FrameInv(g, st) && LowInv(g, st) && CanPush(g, st, s, next)
    ensures LowInv(g, Push(st, s, next))
  {
    var u := Push(st, s, next);
    forall j | 0 <= j < |u.dfs|
      ensures LowAt(g, u, j)
    {
      if j < |st.dfs| {
        assert LowAt(g, st, j);
        var k :| 0 <= k < |st.stack| && st.stack[k] in st.index && st.index[st.stack[k]] == st.low[st.dfs[j].b] &&
                 Reach(g, st.dfs[j].b, st.stack[k]);
        assert u.stack[k] == st.stack[k];
      } else {
        ReachSelf(g, s);
        assert u.stack[|st.stack|] == s;
      }
    }
  }

  lemma PushKeeps(g: Graph, st: State, s: nat, next: nat)
    requires Inv(g, st) && CanPush(g, st, s, next)
    ensures Inv(g, Push(st, s, next))
  {
    hide StackInv, FrameInv, ReachInv, EdgeInv, LowInv;
    PushStack(g, st, s, next);
    PushFrames(g, st, s, next);
    PushReach(g, st, s, next);
    PushEdges(g, st, s, next);
    PushLow(g, st, s, next);
  }

  // ----- passing a slot -----

  ghost function Look(st: State, j: nat, v: nat): State
    requires j < |st.dfs|
  {
    st.(low := st.low[st.dfs[j].b := v], dfs := st.dfs[j := Frame(st.dfs[j].b, st.dfs[j].si + 1)])
  }

  /** Frame j's next slot is nil or leads to a numbered block, and v is its low number
      lowered to that block's number when the block is stacked. */
  ghost predicate CanLook(g: Graph, st: State, j: nat, v: nat) {
    && j < |st.dfs| && st.dfs[j].b < |g| && st.dfs[j].si < |g[st.dfs[j].b]| && st.dfs[j].b in st.low
    && var slot := g[st.dfs[j].b][st.dfs[j].si];
       && (slot.Some? ==> slot.value in st.index)
       && (slot.Some? && slot.value in st.stack ==> v <= st.index[slot.value])
       && (v == st.low[st.dfs[j].b] || (v < st.low[st.dfs[j].b] && slot.Some? && slot.value in st.stack && v == st.index[slot.value]))
  }

  lemma FramesDiffer(g: Graph, st: State, i: nat, j: nat)
    requires StackInv(st) && FrameInv(g, st) && i < |st.dfs| && j < |st.dfs| && i != j
    ensures st.dfs[i].b != st.dfs[j].b
  {
    var a, b := if i < j then i else j, if i < j then j else i;
    assert st.pos[a] < st.pos[b];
    assert st.index[st.stack[st.pos[a]]] < st.index[st.stack[st.pos[b]]];
  }

  lemma LookFrames(g: Graph, st: State, j: nat, v: nat)
    requires FrameInv(g, st) && CanLook(g, st, j, v)
    ensures FrameInv(g, Look(st, j, v))
  {
  }

  lemma LookSegment(st: State, j: nat, v: nat, i: nat, k: nat)
    requires j < |st.dfs|
    ensures Segment(Look(st, j, v), i, k) <==> Segment(st, i, k)
    ensures i < |st.dfs| ==> Look(st, j, v).dfs[i].b == st.dfs[i].b
  {
  }

  lemma LookReach(g: Graph, st: State, j: nat, v: nat)
    requires ReachInv(g, st) && CanLook(g, st, j, v)
    ensures ReachInv(g, Look(st, j, v))
  {
    var u := Look(st, j, v);
    forall i: nat, k: nat | Segment(u, i, k)
      ensures Reach(g, u.stack[k], u.dfs[i].b)
    {
      LookSegment(st, j, v, i, k);
    }
  }

  lemma LookEdges(g: Graph, st: State, j: nat, v: nat)
    requires StackInv(st) && FrameInv(g, st) && EdgeInv(g, st) && CanLook(g, st, j, v)
    ensures EdgeInv(g, Look(st, j, v))
  {
    var u := Look(st, j, v);
    forall i: nat, k: nat, y: nat | Segment(u, i, k) && Looked(g, u, i, k, y)
      ensures EdgeOk(u, i, y)
    {
      LookSegment(st, j, v, i, k);
      if i != j {
        FramesDiffer(g, st, i, j);
      }
      if Looked(g, st, i, k, y) {
        assert EdgeOk(st, i, y);
      } else {
        assert i == j && k == st.pos[j];
        var x :| 0 <= x < |g[u.stack[k]]| && g[u.stack[k]][x] == Some(y) && (k == u.pos[i] ==> x < u.dfs[i].si);
        assert x == st.dfs[j].si;
      }
    }
  }

  lemma LookLow(g: Graph, st: State, j: nat, v: nat)
    requires StackInv(st) && FrameInv(g, st) && LowInv(g, st) && CanLook(g, st, j, v)
    ensures LowInv(g, Look(st, j, v))
  {
    var u := Look(st, j, v);
    forall i | 0 <= i < |u.dfs|
      ensures LowAt(g, u, i)
    {
      assert LowAt(g, st, i);
      if i != j {
        FramesDiffer(g, st, i, j);
      } else if v != st.low[st.dfs[j].b] {
        var y := g[st.dfs[j].b][st.dfs[j].si].value;
        assert Edge(g, st.dfs[j].b, y);
        ReachEdge(g, st.dfs[j].b, y);
        var k :| 0 <= k < |st.stack| && st.stack[k] == y;
        assert u.stack[k] == y;
      }
    }
  }

  lemma LookKeeps(g: Graph, st: State, j: nat, v: nat)
    requires Inv(g, st) && CanLook(g, st, j, v)
    ensures Inv(g, Look(st, j, v))
  {
    hide FrameInv, ReachInv, EdgeInv, LowInv;
    LookFrames(g, st, j, v);
    LookReach(g, st, j, v);
    LookEdges(g, st, j, v);
    LookLow(g, st, j, v);
  }

  // ----- leaving a block -----

  /** The block is not the first of its component: its segment joins the one below. */
  ghost function Merge(st: State, v: nat): State
    requires |st.dfs| >= 2 && |st.pos| == |st.dfs|
  {
    var m := |st.dfs| - 1;
    st.(low := st.low[st.dfs[m - 1].b := v], dfs := st.dfs[..m], pos := st.pos[..m])
  }

  ghost predicate CanMerge(g: Graph, st: State, v: nat) {
    && |st.dfs| >= 2 && |st.pos| == |st.dfs|
    && var m := |st.dfs| - 1; var c, p := st.dfs[m], st.dfs[m - 1].b;
       && c.b < |g| && c.si == |g[c.b]| && c.b in st.low && p in st.low && c.b in st.index
       && st.low[c.b] != st.index[c.b]
       && v == if st.low[c.b] < st.low[p] then st.low[c.b] else st.low[p]
  }

  lemma MergeFrames(g: Graph, st: State, v: nat)
    requires FrameInv(g, st) && CanMerge(g, st, v)
    ensures FrameInv(g, Merge(st, v))
  {
  }

  /** The segments of the merged state. */
  lemma MergeSegment(g: Graph, st: State, v: nat, i: nat, k: nat)
    requires FrameInv(g, st) && CanMerge(g, st, v) && Segment(Merge(st, v), i, k)
    ensures i < |st.dfs| - 1
    ensures i < |st.dfs| - 2 ==> Segment(st, i, k)
    ensures i == |st.dfs| - 2 ==> Segment(st, i, k) || Segment(st, i + 1, k)
  {
  }

  /** A block whose low number is not its own reaches a block stacked below it. */
  lemma LowBelow(g: Graph, st: State, m: nat) returns (k: nat)
    requires StackInv(st) && FrameInv(g, st) && m < |st.dfs| && LowAt(g, st, m)
    requires st.low[st.dfs[m].b] != st.index[st.dfs[m].b]
    ensures k < st.pos[m] && Reach(g, st.dfs[m].b, st.stack[k])
  {
    var c := st.dfs[m].b;
    k :| 0 <= k < |st.stack| && st.stack[k] in st.index && st.index[st.stack[k]] == st.low[c] && Reach(g, c, st.stack[k]);
    assert st.stack[st.pos[m]] == c;
  }

  /** A block stacked below frame m reaches every frame's block from its own up to m. */
  lemma BelowReaches(g: Graph, st: State, m: nat, k: nat)
    requires FrameInv(g, st) && ReachInv(g, st) && 0 < m < |st.dfs| && k < st.pos[m]
    ensures Reach(g, st.stack[k], st.dfs[m - 1].b)
  {
    var i := OwnerOf(g, st, k);
    assert i < m;
    assert st.pos[i] <= st.pos[m - 1];
    assert Reach(g, st.dfs[i].b, st.stack[st.pos[m - 1]]);
    ReachTrans(g, st.stack[k], st.dfs[i].b, st.dfs[m - 1].b);
  }

  /** The block being left reaches its parent frame's block. */
  lemma ChildReachesParent(g: Graph, st: State, v: nat)
    requires StackInv(st) && FrameInv(g, st) && ReachInv(g, st) && LowInv(g, st) && CanMerge(g, st, v)
    ensures Reach(g, st.dfs[|st.dfs| - 1].b, st.dfs[|st.dfs| - 2].b)
  {
    hide StackInv, FrameInv, ReachInv;
    var m := |st.dfs| - 1;
    var k := LowBelow(g, st, m);
    BelowReaches(g, st, m, k);
    StackHolds(g, st, m);
    ReachTrans(g, st.dfs[m].b, st.stack[k], st.dfs[m - 1].b);
  }

  lemma StackHolds(g: Graph, st: State, m: nat)
    requires FrameInv(g, st) && m < |st.dfs|
    ensures m < |st.pos| && st.pos[m] < |st.stack|
  {
  }

  /** Every stack position lies in some frame's segment. */
  lemma OwnerOf(g: Graph, st: State, k: nat) returns (j: nat)
    requires FrameInv(g, st) && k < |st.stack|
    ensures Segment(st, j, k)
  {
    j := |st.dfs| - 1;
    while st.pos[j] > k
      invariant j < |st.dfs| && k < End(st, j)
    {
      j := j - 1;
    }
  }

  lemma MergeReachAt(g: Graph, st: State, v: nat, i: nat, k: nat)
    requires FrameInv(g, st) && ReachInv(g, st) && CanMerge(g, st, v) && Segment(Merge(st, v), i, k)
    requires Reach(g, st.dfs[|st.dfs| - 1].b, st.dfs[|st.dfs| - 2].b)
    ensures Reach(g, st.stack[k], st.dfs[i].b)
  {
    hide FrameInv, Reach;
    var m := |st.dfs| - 1;
    MergeSegment(g, st, v, i, k);
    if !Segment(st, i, k) {
      ReachTrans(g, st.stack[k], st.dfs[m].b, st.dfs[m - 1].b);
    }
  }

  lemma MergeReach(g: Graph, st: State, v: nat)
    requires StackInv(st) && FrameInv(g, st) && ReachInv(g, st) && LowInv(g, st) && CanMerge(g, st, v)
    ensures ReachInv(g, Merge(st, v))
  {
    hide StackInv, FrameInv, LowInv, Reach;
    var u := Merge(st, v);
    ChildReachesParent(g, st, v);
    forall i: nat, k: nat | Segment(u, i, k)
      ensures Reach(g, u.stack[k], u.dfs[i].b)
    {
      MergeReachAt(g, st, v, i, k);
    }
  }

  lemma MergeEdgeKept(g: Graph, st: State, v: nat, i: nat, k: nat, y: nat)
    requires StackInv(st) && FrameInv(g, st) && EdgeInv(g, st) && CanMerge(g, st, v)
    requires Segment(Merge(st, v), i, k) && Looked(g, Merge(st, v), i, k, y) && Segment(st, i, k)
    ensures EdgeOk(Merge(st, v), i, y)
  {
    hide StackInv, FrameInv;
    var m := |st.dfs| - 1;
    assert Looked(g, st, i, k, y);
    assert EdgeOk(st, i, y);
    if i != m - 1 {
      FramesDiffer(g, st, i, m - 1);
    }
  }

  lemma MergeEdgeJoined(g: Graph, st: State, v: nat, k: nat, y: nat)
    requires FrameInv(g, st) && EdgeInv(g, st) && CanMerge(g, st, v) && Segment(st, |st.dfs| - 1, k)
    requires Segment(Merge(st, v), |st.dfs| - 2, k) && Looked(g, Merge(st, v), |st.dfs| - 2, k, y)
    ensures EdgeOk(Merge(st, v), |st.dfs| - 2, y)
  {
    var m := |st.dfs| - 1;
    assert Looked(g, st, m, k, y);
    assert EdgeOk(st, m, y);
  }

  lemma MergeEdges(g: Graph, st: State, v: nat)
    requires StackInv(st) && FrameInv(g, st) && EdgeInv(g, st) && CanMerge(g, st, v)
    ensures EdgeInv(g, Merge(st, v))
  {
    var u := Merge(st, v);
    forall i: nat, k: nat, y: nat | Segment(u, i, k) && Looked(g, u, i, k, y)
      ensures EdgeOk(u, i, y)
    {
      hide StackInv, FrameInv, EdgeOk, Looked;
      MergeSegment(g, st, v, i, k);
      if Segment(st, i, k) {
        MergeEdgeKept(g, st, v, i, k, y);
      } else {
        MergeEdgeJoined(g, st, v, k, y);
      }
    }
  }

  lemma ParentReachesChild(g: Graph, st: State, v: nat)
    requires FrameInv(g, st) && ReachInv(g, st) && CanMerge(g, st, v)
    ensures Reach(g, st.dfs[|st.dfs| - 2].b, st.dfs[|st.dfs| - 1].b)
  {
    var m := |st.dfs| - 1;
    assert Reach(g, st.dfs[m - 1].b, st.stack[st.pos[m]]);
  }

  lemma MergeLowKept(g: Graph, st: State, v: nat, i: nat)
    requires StackInv(st) && FrameInv(g, st) && CanMerge(g, st, v) && i < |st.dfs| - 2 && LowAt(g, st, i)
    ensures LowAt(g, Merge(st, v), i)
  {
    hide StackInv, FrameInv, Reach;
    var u, b := Merge(st, v), st.dfs[i].b;
    FramesDiffer(g, st, i, |st.dfs| - 2);
    var k :| 0 <= k < |st.stack| && st.stack[k] in st.index && st.index[st.stack[k]] == st.low[b] && Reach(g, b, st.stack[k]);
    assert u.stack[k] == st.stack[k];
  }

  /** The lower of the two low numbers is that of a block the parent reaches. */
  lemma MergeLowParent(g: Graph, st: State, v: nat)
    requires CanMerge(g, st, v) && LowAt(g, st, |st.dfs| - 2) && LowAt(g, st, |st.dfs| - 1)
    requires Reach(g, st.dfs[|st.dfs| - 2].b, st.dfs[|st.dfs| - 1].b)
    ensures LowAt(g, Merge(st, v), |st.dfs| - 2)
  {
    hide Reach;
    var u, m := Merge(st, v), |st.dfs| - 1;
    var c, p := st.dfs[m].b, st.dfs[m - 1].b;
    var x := if v == st.low[c] then c else p;
    var k :| 0 <= k < |st.stack| && st.stack[k] in st.index && st.index[st.stack[k]] == st.low[x] && Reach(g, x, st.stack[k]);
    if x == c {
      ReachTrans(g, p, c, st.stack[k]);
    }
    assert u.stack[k] == st.stack[k];
  }

  lemma MergeLow(g: Graph, st: State, v: nat)
    requires StackInv(st) && FrameInv(g, st) && ReachInv(g, st) && LowInv(g, st) && CanMerge(g, st, v)
    ensures LowInv(g, Merge(st, v))
  {
    hide StackInv, FrameInv, ReachInv, LowAt, Reach;
    var m := |st.dfs| - 1;
    ParentReachesChild(g, st, v);
    assert LowAt(g, st, m) && LowAt(g, st, m - 1);
    MergeLowParent(g, st, v);
    forall i | 0 <= i < m - 1
      ensures LowAt(g, Merge(st, v), i)
    {
      MergeLowKept(g, st, v, i);
    }
  }

  lemma MergeKeeps(g: Graph, st: State, v: nat)
    requires Inv(g, st) && CanMerge(g, st, v)
    ensures Inv(g, Merge(st, v))
  {
    hide FrameInv, ReachInv, EdgeInv, LowInv;
    MergeFrames(g, st, v);
    MergeReach(g, st, v);
    MergeEdges(g, st, v);
    MergeLow(g, st, v);
  }

  // ----- closing a component -----

  /** The blocks stacked from the top frame's block on. */
  ghost function Comp(st: State): (s: set<nat>)
    requires |st.pos| > 0 && st.pos[|st.pos| - 1] <= |st.stack|
  {
    var tail := st.stack[st.pos[|st.pos| - 1]..];
    set x | x in tail
  }

  ghost function Close(st: State): State
    requires |st.dfs| > 0 && |st.pos| == |st.dfs| && st.pos[|st.pos| - 1] <= |st.stack|
  {
    var m := |st.dfs| - 1;
    st.(stack := st.stack[..st.pos[m]], done := st.done + Comp(st), dfs := st.dfs[..m], pos := st.pos[..m])
  }

  ghost predicate CanClose(g: Graph, st: State) {
    && |st.dfs| > 0 && |st.pos| == |st.dfs| && st.pos[|st.pos| - 1] < |st.stack|
    && var c := st.dfs[|st.dfs| - 1];
       c.b < |g| && c.si == |g[c.b]| && c.b in st.low && c.b in st.index && st.low[c.b] == st.index[c.b]
  }

  lemma CompMember(st: State, x: nat) returns (k: nat)
    requires |st.pos| > 0 && st.pos[|st.pos| - 1] <= |st.stack| && x in Comp(st)
    ensures st.pos[|st.pos| - 1] <= k < |st.stack| && st.stack[k] == x
  {
    var p := st.pos[|st.pos| - 1];
    var i :| 0 <= i < |st.stack[p..]| && st.stack[p..][i] == x;
    k := p + i;
  }

  lemma CompHolds(st: State, k: nat)
    requires |st.pos| > 0 && st.pos[|st.pos| - 1] <= k < |st.stack|
    ensures st.stack[k] in Comp(st)
  {
    var p := st.pos[|st.pos| - 1];
    assert st.stack[k] == st.stack[p..][k - p];
  }

  /** Edges out of the closing component end in it or in finished ones. */
  lemma CompClosed(g: Graph, st: State, a: nat, y: nat)
    requires StackInv(st) && FrameInv(g, st) && EdgeInv(g, st) && CanClose(g, st)
    requires a in Comp(st) && Edge(g, a, y)
    ensures y in Comp(st) || y in st.done
  {
    var m := |st.dfs| - 1;
    var k := CompMember(st, a);
    assert Segment(st, m, k);
    assert Looked(g, st, m, k, y);
    assert EdgeOk(st, m, y);
    if y in st.stack {
      var i :| 0 <= i < |st.stack| && st.stack[i] == y;
      assert st.stack[st.pos[m]] == st.dfs[m].b;
      assert i >= st.pos[m];
      CompHolds(st, i);
    }
  }

  lemma CompReach(g: Graph, st: State, a: nat, b: nat)
    requires FrameInv(g, st) && ReachInv(g, st) && CanClose(g, st) && a in Comp(st) && b in Comp(st)
    ensures Reach(g, a, b)
  {
    var m := |st.dfs| - 1;
    var i := CompMember(st, a);
    var k := CompMember(st, b);
    assert Segment(st, m, i);
    ReachTrans(g, a, st.dfs[m].b, b);
  }

  lemma CompMaximal(g: Graph, st: State, a: nat, b: nat)
    requires StackInv(st) && FrameInv(g, st) && EdgeInv(g, st) && DoneInv(g, st) && CanClose(g, st)
    requires a in Comp(st) && Reach(g, a, b) && Reach(g, b, a)
    ensures b in Comp(st)
  {
    forall x, y | x in Comp(st) + st.done && Edge(g, x, y)
      ensures y in Comp(st) + st.done
    {
      if x in Comp(st) {
        CompClosed(g, st, x, y);
      }
    }
    ClosedHoldsReach(g, Comp(st) + st.done, a, b);
    var k := CompMember(st, a);
    assert st.stack[k] in st.stack;
    if b in st.done {
      ClosedHoldsReach(g, st.done, b, a);
    }
  }

  /** What is closed is a strongly connected component. */
  lemma CompIsScc(g: Graph, st: State)
    requires Inv(g, st) && CanClose(g, st)
    ensures IsScc(g, Comp(st))
  {
    hide StackInv, FrameInv, ReachInv, EdgeInv, LowInv, DoneInv;
    CompHolds(st, st.pos[|st.pos| - 1]);
    forall a, b | a in Comp(st) && b in Comp(st)
      ensures Reach(g, a, b)
    {
      CompReach(g, st, a, b);
    }
    forall a, b: nat | a in Comp(st) && Reach(g, a, b) && Reach(g, b, a)
      ensures b in Comp(st)
    {
      CompMaximal(g, st, a, b);
    }
  }

  lemma BelowComp(st: State, i: nat)
    requires StackInv(st) && |st.pos| > 0 && i < st.pos[|st.pos| - 1] <= |st.stack|
    ensures st.stack[i] !in Comp(st)
  {
    hide Comp;
    if st.stack[i] in Comp(st) {
      var k := CompMember(st, st.stack[i]);
    }
  }

  lemma CompSplits(st: State, p: nat, x: nat)
    requires |st.pos| > 0 && p == st.pos[|st.pos| - 1] <= |st.stack|
    ensures x in st.stack <==> x in st.stack[..p] || x in Comp(st)
  {
    assert st.stack == st.stack[..p] + st.stack[p..];
  }

  lemma CloseStack(g: Graph, st: State)
    requires StackInv(st) && CanClose(g, st)
    ensures StackInv(Close(st))
  {
    hide Comp;
    var u, p := Close(st), st.pos[|st.pos| - 1];
    forall x
      ensures x in st.index <==> x in u.stack || x in u.done
      ensures x in u.stack ==> x !in u.done
    {
      CompSplits(st, p, x);
      if x in u.stack {
        var i :| 0 <= i < p && st.stack[i] == x;
        BelowComp(st, i);
      }
    }
    assert forall i :: 0 <= i < p ==> u.stack[i] == st.stack[i];
  }

  lemma CloseFrames(g: Graph, st: State)
    requires FrameInv(g, st) && CanClose(g, st)
    ensures FrameInv(g, Close(st))
  {
  }

  lemma CloseSegment(g: Graph, st: State, i: nat, k: nat)
    requires FrameInv(g, st) && CanClose(g, st) && Segment(Close(st), i, k)
    ensures i < |st.dfs| - 1 && Segment(st, i, k)
  {
  }

  lemma CloseReach(g: Graph, st: State)
    requires FrameInv(g, st) && ReachInv(g, st) && CanClose(g, st)
    ensures ReachInv(g, Close(st))
  {
    var u := Close(st);
    forall i: nat, k: nat | Segment(u, i, k)
      ensures Reach(g, u.stack[k], u.dfs[i].b)
    {
      CloseSegment(g, st, i, k);
    }
  }

  lemma CloseEdges(g: Graph, st: State)
    requires FrameInv(g, st) && EdgeInv(g, st) && CanClose(g, st)
    ensures EdgeInv(g, Close(st))
  {
    var u := Close(st);
    forall i: nat, k: nat, y: nat | Segment(u, i, k) && Looked(g, u, i, k, y)
      ensures EdgeOk(u, i, y)
    {
      CloseSegment(g, st, i, k);
      assert Looked(g, st, i, k, y);
      assert EdgeOk(st, i, y);
    }
  }

  lemma CloseLow(g: Graph, st: State)
    requires StackInv(st) && FrameInv(g, st) && LowInv(g, st) && CanClose(g, st)
    ensures LowInv(g, Close(st))
  {
    var u, m := Close(st), |st.dfs| - 1;
    forall i | 0 <= i < |u.dfs|
      ensures LowAt(g, u, i)
    {
      var b := st.dfs[i].b;
      assert LowAt(g, st, i);
      var k :| 0 <= k < |st.stack| && st.stack[k] in st.index && st.index[st.stack[k]] == st.low[b] && Reach(g, b, st.stack[k]);
      assert st.stack[st.pos[i]] == b && st.pos[i] < st.pos[m];
      assert u.stack[k] == st.stack[k];
    }
  }

  lemma CloseDone(g: Graph, st: State)
    requires StackInv(st) && FrameInv(g, st) && EdgeInv(g, st) && DoneInv(g, st) && CanClose(g, st)
    ensures DoneInv(g, Close(st))
  {
    forall a, b | a in st.done + Comp(st) && Edge(g, a, b)
      ensures b in st.done + Comp(st)
    {
      if a in Comp(st) {
        CompClosed(g, st, a, b);
      }
    }
  }

  lemma CloseKeeps(g: Graph, st: State)
    requires Inv(g, st) && CanClose(g, st)
    ensures Inv(g, Close(st))
  {
    hide StackInv, FrameInv, ReachInv, EdgeInv, LowInv, DoneInv;
    CloseStack(g, st);
    CloseFrames(g, st);
    CloseReach(g, st);
    CloseEdges(g, st);
    CloseLow(g, st);
    CloseDone(g, st);
  }

  /** Closing a component never lowers the parent frame. */
  lemma ClosedIsHigher(g: Graph, st: State)
    requires StackInv(st) && FrameInv(g, st) && LowInv(g, st) && CanClose(g, st) && |st.dfs| >= 2
    ensures var c, p := st.dfs[|st.dfs| - 1].b, st.dfs[|st.dfs| - 2].b;
            p in st.low && st.low[c] >= st.low[p]
  {
    var m := |st.dfs| - 1;
    assert LowAt(g, st, m - 1);
    assert st.pos[m - 1] < st.pos[m];
    assert st.index[st.stack[st.pos[m - 1]]] < st.index[st.stack[st.pos[m]]];
  }

  /** The bottom frame always closes a component. */
  lemma BottomCloses(g: Graph, st: State)
    requires StackInv(st) && FrameInv(g, st) && LowInv(g, st) && |st.dfs| == 1
    ensures st.dfs[0].b in st.low && st.dfs[0].b in st.index && st.low[st.dfs[0].b] == st.index[st.dfs[0].b]
  {
    var b := st.dfs[0].b;
    assert LowAt(g, st, 0);
    var k :| 0 <= k < |st.stack| && st.stack[k] in st.index && st.index[st.stack[k]] == st.low[b] && Reach(g, b, st.stack[k]);
    assert st.stack[st.pos[0]] == b;
  }
}
