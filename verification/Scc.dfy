/** Strongly connected components: Tarjan's algorithm, iterated (analysis/scc.go). */
module Scc {
  import opened Graphs
  import opened SccTheory

  /** An edge out of component i leads into it or into an earlier one. */
  ghost predicate LeadsBack(g: Graph, comps: seq<seq<nat>>, i: nat)
    requires i < |comps|
  {
    forall a, b :: a in comps[i] && Edge(g, a, b) ==> exists j :: 0 <= j <= i && b in comps[j]
  }

  /** The listed components are whole strongly connected components, pairwise
      disjoint, each block listed once, together hold exactly `done`, and are in
      reverse topological order. */
  ghost predicate CompsOk(g: Graph, comps: seq<seq<nat>>, done: set<nat>) {
    && (forall i :: 0 <= i < |comps| ==> Distinct(comps[i]) && IsScc(g, Members(comps[i])) && Members(comps[i]) <= done)
    && (forall i, j :: 0 <= i < j < |comps| ==> Members(comps[i]) !! Members(comps[j]))
    && (forall x :: x in done ==> exists i :: 0 <= i < |comps| && x in comps[i])
    && (forall i :: 0 <= i < |comps| ==> LeadsBack(g, comps, i))
  }

  /** The ghost snapshot is the program's state. */
  ghost predicate Agrees(st: State, index: map<nat, nat>, low: map<nat, nat>, onStack: set<nat>,
                         stack: seq<nat>, dfs: seq<Frame>) {
    && st.index == index && st.low == low && st.stack == stack && st.dfs == dfs
    && forall x :: x in onStack <==> x in stack
  }

  /** The inner loop: passes the top frame's successors, lowering its low number,
      until one is not numbered yet. */
  method Scan(g: Graph, index: map<nat, nat>, low0: map<nat, nat>, onStack: set<nat>, b: nat, si0: nat, ghost st0: State)
    returns (si: nat, low: map<nat, nat>, found: Option<nat>, ghost st: State)
    requires Inv(g, st0) && st0.dfs != [] && st0.dfs[|st0.dfs| - 1] == Frame(b, si0)
    requires st0.index == index && st0.low == low0 && forall x :: x in onStack <==> x in st0.stack
    ensures Inv(g, st) && st == st0.(low := low, dfs := st0.dfs[|st0.dfs| - 1 := Frame(b, si)])
    ensures b < |g| && b in index && si <= |g[b]|
    ensures found.None? ==> si == |g[b]|
    ensures found.Some? ==> si < |g[b]| && g[b][si] == found && found.value !in index
  {
    hide StackInv, FrameInv, ReachInv, EdgeInv, LowInv, DoneInv;
    si, low, found, st := si0, low0, None, st0;
    ghost var top := |st0.dfs| - 1;
    TopFrame(g, st0);
    while si < |g[b]|
      invariant Inv(g, st) && st == st0.(low := low, dfs := st0.dfs[top := Frame(b, si)])
      invariant b in low && si <= |g[b]|
    {
      var slot := g[b][si];
      if slot.Some? {
        var s := slot.value;
        if s !in index {
          found := slot;
          return;
        }
        if s in onStack && index[s] < low[b] {
          LookKeeps(g, st, top, index[s]);
          st := Look(st, top, index[s]);
          low := low[b := index[s]];
          si := si + 1;
          continue;
        }
      }
      LookKeeps(g, st, top, low[b]);
      st := Look(st, top, low[b]);
      si := si + 1;
    }
  }

  lemma TopFrame(g: Graph, st: State)
    requires StackInv(st) && FrameInv(g, st) && st.dfs != []
    ensures var f := st.dfs[|st.dfs| - 1]; f.b < |g| && f.si <= |g[f.b]| && f.b in st.index && f.b in st.low
  {
    var m := |st.dfs| - 1;
    assert st.stack[st.pos[m]] in st.stack;
  }

  /** Unstacks a component, top first, down to and including b. */
  method PopComp(stack0: seq<nat>, onStack0: set<nat>, b: nat, ghost p: nat)
    returns (comp: seq<nat>, stack: seq<nat>, onStack: set<nat>)
    requires p < |stack0| && stack0[p] == b && Distinct(stack0)
    requires forall x :: x in onStack0 <==> x in stack0
    ensures stack == stack0[..p] && Distinct(comp)
    ensures forall x :: x in comp <==> x in stack0[p..]
    ensures forall x :: x in onStack <==> x in stack
  {
    comp, stack, onStack := [], stack0, onStack0;
    while true
      invariant p < |stack| <= |stack0| && stack == stack0[..|stack|]
      invariant |comp| == |stack0| - |stack|
      invariant forall i :: 0 <= i < |comp| ==> comp[i] == stack0[|stack0| - 1 - i]
      invariant forall x :: x in onStack <==> x in stack
      decreases |stack|
    {
      var w := stack[|stack| - 1];
      assert stack == stack[..|stack| - 1] + [w];
      stack := stack[..|stack| - 1];
      onStack := onStack - {w};
      comp := comp + [w];
      if w == b {
        break;
      }
    }
    assert |stack| == p;
    forall x
      ensures x in comp <==> x in stack0[p..]
    {
      PoppedMembers(stack0, comp, p, x);
    }
  }

  lemma PoppedMembers(stack0: seq<nat>, comp: seq<nat>, p: nat, x: nat)
    requires p < |stack0| && |comp| == |stack0| - p
    requires forall i :: 0 <= i < |comp| ==> comp[i] == stack0[|stack0| - 1 - i]
    ensures x in comp <==> x in stack0[p..]
  {
    if x in comp {
      var i :| 0 <= i < |comp| && comp[i] == x;
      assert x == stack0[p..][|stack0| - 1 - i - p];
    }
    if x in stack0[p..] {
      var k :| 0 <= k < |stack0[p..]| && stack0[p..][k] == x;
      assert comp[|stack0| - 1 - p - k] == x;
    }
  }

  lemma OrderGrows(g: Graph, comps: seq<seq<nat>>, done: set<nat>, c: seq<nat>)
    requires forall i :: 0 <= i < |comps| ==> LeadsBack(g, comps, i)
    requires forall x :: x in done ==> exists i :: 0 <= i < |comps| && x in comps[i]
    requires forall a, b :: a in c && Edge(g, a, b) ==> b in c || b in done
    ensures forall i :: 0 <= i <= |comps| ==> LeadsBack(g, comps + [c], i)
  {
    hide Edge;
    var comps' := comps + [c];
    forall i, a, b | 0 <= i <= |comps| && a in comps'[i] && Edge(g, a, b)
      ensures exists j :: 0 <= j <= i && b in comps'[j]
    {
      if i < |comps| {
        assert LeadsBack(g, comps, i);
        var j :| 0 <= j <= i && b in comps[j];
        assert b in comps'[j];
      } else if b in c {
        assert b in comps'[i];
      } else {
        var j :| 0 <= j < |comps| && b in comps[j];
        assert b in comps'[j];
      }
    }
  }

  lemma CompsGrow(g: Graph, comps: seq<seq<nat>>, done: set<nat>, c: seq<nat>)
    requires CompsOk(g, comps, done) && Distinct(c) && IsScc(g, Members(c)) && Members(c) !! done
    requires forall a, b :: a in c && Edge(g, a, b) ==> b in c || b in done
    ensures CompsOk(g, comps + [c], done + Members(c))
  {
    hide IsScc, Edge, LeadsBack, Members;
    var comps' := comps + [c];
    OrderGrows(g, comps, done, c);
    forall i | 0 <= i < |comps'|
      ensures Distinct(comps'[i]) && IsScc(g, Members(comps'[i])) && Members(comps'[i]) <= done + Members(c)
    {
      assert comps'[i] == if i < |comps| then comps[i] else c;
    }
    forall i, j | 0 <= i < j < |comps'|
      ensures Members(comps'[i]) !! Members(comps'[j])
    {
      assert comps'[i] == comps[i];
      assert comps'[j] == if j < |comps| then comps[j] else c;
    }
    forall x | x in done + Members(c)
      ensures exists i :: 0 <= i < |comps'| && x in comps'[i]
    {
      Listed(comps, done, c, x);
    }
  }

  lemma Listed(comps: seq<seq<nat>>, done: set<nat>, c: seq<nat>, x: nat)
    requires forall y :: y in done ==> exists i :: 0 <= i < |comps| && y in comps[i]
    requires x in done + Members(c)
    ensures exists i :: 0 <= i <= |comps| && x in (comps + [c])[i]
  {
    if x in done {
      var i :| 0 <= i < |comps| && x in comps[i];
      assert (comps + [c])[i] == comps[i];
    } else {
      assert x in (comps + [c])[|comps|];
    }
  }

  lemma StackDistinct(st: State)
    requires StackInv(st)
    ensures Distinct(st.stack)
  {
    forall i, k | 0 <= i < k < |st.stack|
      ensures st.stack[i] != st.stack[k]
    {
      assert st.index[st.stack[i]] < st.index[st.stack[k]];
    }
  }

  /** What the outer loop keeps. */
  ghost predicate Running(g: Graph, st: State, comps: seq<seq<nat>>, next: nat) {
    && Inv(g, st) && CompsOk(g, comps, st.done)
    && (forall x :: x in st.index ==> st.index[x] < next && x < |g|)
  }

  lemma EnterKeeps(g: Graph, st: State, comps: seq<seq<nat>>, next: nat, s: nat)
    requires Running(g, st, comps, next) && CanPush(g, st, s, next)
    ensures Running(g, Push(st, s, next), comps, next + 1)
  {
    hide StackInv, FrameInv, ReachInv, EdgeInv, LowInv, DoneInv, CompsOk;
    PushKeeps(g, st, s, next);
  }

  /** Descending: the successor is entered and its slot passed. */
  lemma DescendKeeps(g: Graph, st: State, comps: seq<seq<nat>>, next: nat, s: nat)
    requires Running(g, st, comps, next) && st.dfs != [] && s !in st.index && s < |g|
    requires var f := st.dfs[|st.dfs| - 1]; f.b < |g| && f.si < |g[f.b]| && g[f.b][f.si] == Some(s) && f.b in st.low
    ensures CanPush(g, st, s, next)
    ensures var top := |st.dfs| - 1; var u := Push(st, s, next);
            Running(g, Look(u, top, u.low[st.dfs[top].b]), comps, next + 1)
  {
    hide StackInv, FrameInv, ReachInv, EdgeInv, LowInv, DoneInv, CompsOk;
    var top := |st.dfs| - 1;
    var b := st.dfs[top].b;
    assert Edge(g, b, s);
    TopFrame(g, st);
    EnterKeeps(g, st, comps, next, s);
    var u := Push(st, s, next);
    TopLow(g, st);
    LookKeeps(g, u, top, u.low[b]);
  }

  lemma TopLow(g: Graph, st: State)
    requires LowInv(g, st) && st.dfs != []
    ensures var b := st.dfs[|st.dfs| - 1].b; b in st.low && b in st.index && st.low[b] <= st.index[b]
  {
    assert LowAt(g, st, |st.dfs| - 1);
  }

  lemma CloseRuns(g: Graph, st: State, comps: seq<seq<nat>>, next: nat, comp: seq<nat>)
    requires Running(g, st, comps, next) && CanClose(g, st)
    requires Distinct(comp) && Members(comp) == Comp(st)
    ensures Running(g, Close(st), comps + [comp], next)
  {
    hide FrameInv, ReachInv, EdgeInv, LowInv, DoneInv, CompsOk, IsScc;
    CompIsScc(g, st);
    CloseKeeps(g, st);
    forall x | x in Comp(st)
      ensures x !in st.done
    {
      var k := CompMember(st, x);
      assert st.stack[k] in st.stack;
    }
    forall a, b | a in comp && Edge(g, a, b)
      ensures b in comp || b in st.done
    {
      assert a in Comp(st);
      CompClosed(g, st, a, b);
      assert b in Comp(st) ==> b in Members(comp);
    }
    CompsGrow(g, comps, st.done, comp);
  }

  lemma MergeRuns(g: Graph, st: State, comps: seq<seq<nat>>, next: nat, v: nat)
    requires Running(g, st, comps, next) && CanMerge(g, st, v)
    ensures Running(g, Merge(st, v), comps, next)
  {
    hide StackInv, FrameInv, ReachInv, EdgeInv, LowInv, DoneInv, CompsOk;
    MergeKeeps(g, st, v);
  }

  /** Leaving a block whose successors are all passed. */
  method Leave(g: Graph, index: map<nat, nat>, low0: map<nat, nat>, onStack0: set<nat>, stack0: seq<nat>,
               dfs0: seq<Frame>, comps0: seq<seq<nat>>, ghost next: nat, ghost st0: State)
    returns (low: map<nat, nat>, onStack: set<nat>, stack: seq<nat>, dfs: seq<Frame>, comps: seq<seq<nat>>, ghost st: State)
    requires Running(g, st0, comps0, next) && Agrees(st0, index, low0, onStack0, stack0, dfs0)
    requires dfs0 != [] && dfs0[|dfs0| - 1].b < |g| && dfs0[|dfs0| - 1].si == |g[dfs0[|dfs0| - 1].b]|
    ensures Running(g, st, comps, next) && Agrees(st, index, low, onStack, stack, dfs)
    ensures dfs == dfs0[..|dfs0| - 1] && comps0 <= comps
  {
    hide StackInv, FrameInv, ReachInv, EdgeInv, LowInv, DoneInv, CompsOk, Running;
    low, onStack, stack, dfs, comps, st := low0, onStack0, stack0, dfs0, comps0, st0;
    var top := |dfs| - 1;
    var b := dfs[top].b;
    RunningInv(g, st0, comps0, next);
    TopFrame(g, st0);
    TopPosition(g, st0);
    if low[b] == index[b] {
      StackDistinct(st0);
      var comp;
      comp, stack, onStack := PopComp(stack, onStack, b, st0.pos[top]);
      comps := comps + [comp];
      assert Members(comp) == Comp(st0);
      CloseRuns(g, st0, comps0, next, comp);
      st := Close(st0);
      if top > 0 {
        ClosedIsHigher(g, st0);
      }
    } else {
      if top == 0 {
        BottomCloses(g, st0);
      }
      ParentFrame(g, st0);
      ghost var p := dfs[top - 1].b;
      ghost var v := if low[b] < low[p] then low[b] else low[p];
      MergeRuns(g, st0, comps0, next, v);
      st := Merge(st0, v);
    }
    var child := b;
    dfs := dfs[..top];
    if |dfs| > 0 {
      var p := dfs[|dfs| - 1].b;
      ParentFrame(g, st0);
      if low[child] < low[p] {
        low := low[p := low[child]];
      }
    }
    assert st.low == low;
  }

  lemma RunningInv(g: Graph, st: State, comps: seq<seq<nat>>, next: nat)
    requires Running(g, st, comps, next)
    ensures Inv(g, st)
  {
  }

  lemma TopPosition(g: Graph, st: State)
    requires FrameInv(g, st) && st.dfs != []
    ensures |st.pos| == |st.dfs| && st.pos[|st.pos| - 1] < |st.stack| && st.stack[st.pos[|st.pos| - 1]] == st.dfs[|st.dfs| - 1].b
  {
  }

  lemma ParentFrame(g: Graph, st: State)
    requires StackInv(st) && FrameInv(g, st) && |st.dfs| >= 2
    ensures st.dfs[|st.dfs| - 2].b in st.low && st.dfs[|st.dfs| - 2].b in st.index
  {
    var m := |st.dfs| - 2;
    assert st.stack[st.pos[m]] in st.stack;
  }

  ghost predicate ClosedSet(g: Graph, all: set<nat>) {
    && (forall x :: x in all ==> x < |g|)
    && (forall x, y :: x in all && Edge(g, x, y) ==> y in all)
  }

  lemma SlotInside(g: Graph, all: set<nat>, b: nat, k: nat)
    requires ClosedSet(g, all) && b in all && b < |g| && k < |g[b]| && g[b][k].Some?
    ensures g[b][k].value in all && g[b][k].value < |g|
  {
    assert Edge(g, b, g[b][k].value);
  }

  /** The first frame's block reaches every frame's block. */
  lemma RootReaches(g: Graph, st: State, j: nat)
    requires FrameInv(g, st) && ReachInv(g, st) && j < |st.dfs|
    ensures Reach(g, st.dfs[0].b, st.dfs[j].b)
  {
    assert st.pos[0] <= st.pos[j];
  }

  ghost predicate AllReached(g: Graph, root: nat, index0: map<nat, nat>, index: map<nat, nat>) {
    forall x :: x in index && x !in index0 ==> Reach(g, root, x)
  }

  lemma ReachedMore(g: Graph, st: State, root: nat, index0: map<nat, nat>, index: map<nat, nat>, s: nat, v: nat)
    requires Inv(g, st) && st.dfs != [] && st.dfs[0].b == root && Edge(g, st.dfs[|st.dfs| - 1].b, s)
    requires AllReached(g, root, index0, index)
    ensures AllReached(g, root, index0, index[s := v])
  {
    RootReaches(g, st, |st.dfs| - 1);
    ReachStep(g, root, st.dfs[|st.dfs| - 1].b, s);
  }

  /** With the stack empty, everything below a numbered block is numbered. */
  lemma AllBelow(g: Graph, st: State, comps: seq<seq<nat>>, next: nat, root: nat, x: nat)
    requires Running(g, st, comps, next) && st.stack == [] && root in st.index && Reach(g, root, x)
    ensures x in st.index
  {
    ClosedHoldsReach(g, st.done, root, x);
  }

  /** The depth-first walk from one root: numbers exactly the blocks below it that
      have no number yet, and appends their components. */
  method Explore(g: Graph, root: nat, index0: map<nat, nat>, low0: map<nat, nat>, comps0: seq<seq<nat>>, next0: nat,
                 ghost st0: State, ghost all: set<nat>)
    returns (index: map<nat, nat>, low: map<nat, nat>, comps: seq<seq<nat>>, next: nat, ghost st: State)
    requires ClosedSet(g, all) && root in all && root !in index0
    requires Running(g, st0, comps0, next0) && Agrees(st0, index0, low0, {}, [], []) && index0.Keys <= all
    ensures Running(g, st, comps, next) && Agrees(st, index, low, {}, [], [])
    ensures index.Keys <= all && comps0 <= comps
    ensures forall x :: x in index <==> x in index0 || Reach(g, root, x)
  {
    hide StackInv, FrameInv, ReachInv, EdgeInv, LowInv, DoneInv, CompsOk, Running, AllReached, Reach;
    index, low, comps, next := index0, low0, comps0, next0;
    var dfs := [Frame(root, 0)];
    EnterRoot(g, st0, comps, next, root);
    st := Push(st0, root, next);
    index, low := index[root := next], low[root := next];
    next := next + 1;
    var stack, onStack := [root], {root};
    ReachedRoot(g, root, index0, index);
    while |dfs| > 0
      invariant Running(g, st, comps, next) && Agrees(st, index, low, onStack, stack, dfs)
      invariant (dfs != [] ==> dfs[0].b == root) && AllReached(g, root, index0, index) && comps0 <= comps
      invariant index0.Keys <= index.Keys <= all && root in index
      decreases all - index.Keys, |dfs|
    {
      var top := |dfs| - 1;
      var b := dfs[top].b;
      var si, found;
      ghost var before := st;
      RunningInv(g, st, comps, next);
      si, low, found, st := Scan(g, index, low, onStack, b, dfs[top].si, st);
      ScanRuns(g, before, st, comps, next);
      dfs := dfs[top := Frame(b, si)];
      if found.Some? {
        var s := found.value;
        SlotInside(g, all, b, si);
        TopFrame(g, st);
        ReachedMore(g, st, root, index0, index, s, next);
        DescendKeeps(g, st, comps, next, s);
        st := Look(Push(st, s, next), top, Push(st, s, next).low[b]);
        ghost var keys := index.Keys;
        index, low := index[s := next], low[s := next];
        assert index.Keys == keys + {s} && s in all - keys;
        next := next + 1;
        stack := stack + [s];
        onStack := onStack + {s};
        dfs := dfs[top := Frame(b, si + 1)] + [Frame(s, 0)];
        assert st.dfs == dfs && st.low == low;
        continue;
      }
      low, onStack, stack, dfs, comps, st := Leave(g, index, low, onStack, stack, dfs, comps, next, st);
    }
    EmptyFrames(g, st, comps, next);
    forall x
      ensures x in index <==> x in index0 || Reach(g, root, x)
    {
      if Reach(g, root, x) {
        AllBelow(g, st, comps, next, root, x);
      }
      NumberedReached(g, root, index0, index, x);
    }
  }

  lemma ReachedRoot(g: Graph, root: nat, index0: map<nat, nat>, index: map<nat, nat>)
    requires index.Keys == index0.Keys + {root}
    ensures AllReached(g, root, index0, index)
  {
    ReachSelf(g, root);
  }

  lemma NumberedReached(g: Graph, root: nat, index0: map<nat, nat>, index: map<nat, nat>, x: nat)
    requires AllReached(g, root, index0, index)
    ensures x in index ==> x in index0 || Reach(g, root, x)
  {
  }

  lemma EnterRoot(g: Graph, st: State, comps: seq<seq<nat>>, next: nat, root: nat)
    requires Running(g, st, comps, next) && st.dfs == [] && st.stack == [] && root !in st.index && root < |g|
    ensures Running(g, Push(st, root, next), comps, next + 1)
  {
    EnterKeeps(g, st, comps, next, root);
  }

  lemma ScanRuns(g: Graph, before: State, st: State, comps: seq<seq<nat>>, next: nat)
    requires Running(g, before, comps, next) && Inv(g, st) && st.index == before.index && st.done == before.done
    ensures Running(g, st, comps, next)
  {
  }

  lemma EmptyFrames(g: Graph, st: State, comps: seq<seq<nat>>, next: nat)
    requires Running(g, st, comps, next) && st.dfs == []
    ensures st.stack == []
  {
  }

  /** The components of the graph below the given roots: a set of blocks closed under
      edges, such as a reverse postorder. Every component is a whole strongly
      connected component, together they partition the blocks, and no edge leads
      from a component to a later one. */
  method SCCs(g: Graph, rpo: seq<nat>) returns (comps: seq<seq<nat>>)
    requires ClosedSet(g, Members(rpo))
    ensures CompsOk(g, comps, Members(rpo))
  {
    hide Running, CompsOk;
    var index: map<nat, nat>, low: map<nat, nat>, next := map[], map[], 0;
    comps := [];
    ghost var all := Members(rpo);
    ghost var st := State(map[], map[], [], [], [], {});
    StartRuns(g);
    for i := 0 to |rpo|
      invariant Running(g, st, comps, next) && Agrees(st, index, low, {}, [], [])
      invariant index.Keys <= all && forall k :: 0 <= k < i ==> rpo[k] in index
    {
      var root := rpo[i];
      if root in index {
        continue;
      }
      assert root in all;
      ReachSelf(g, root);
      index, low, comps, next, st := Explore(g, root, index, low, comps, next, st, all);
    }
    AllDone(g, st, comps, next, all);
  }

  lemma StartRuns(g: Graph)
    ensures Running(g, State(map[], map[], [], [], [], {}), [], 0)
  {
  }

  lemma AllDone(g: Graph, st: State, comps: seq<seq<nat>>, next: nat, all: set<nat>)
    requires Running(g, st, comps, next) && st.stack == [] && st.index.Keys == all
    ensures CompsOk(g, comps, all)
  {
    assert st.done == all;
  }

  lemma ComponentIsMutual(g: Graph, comps: seq<seq<nat>>, all: set<nat>, a: nat, b: nat, i: nat)
    requires CompsOk(g, comps, all) && i < |comps| && a in comps[i]
    ensures b in comps[i] <==> Reach(g, a, b) && Reach(g, b, a)
  {
    hide Reach;
    assert IsScc(g, Members(comps[i])) && a in Members(comps[i]);
  }

  /** A block that reaches another without being reached back is in a later component. */
  lemma ReachedEarlier(g: Graph, comps: seq<seq<nat>>, all: set<nat>, a: nat, b: nat, i: nat, j: nat)
    requires CompsOk(g, comps, all) && i < |comps| && j < |comps| && a in comps[i] && b in comps[j]
    requires Reach(g, a, b)
    ensures j <= i && (j == i <==> Reach(g, b, a))
  {
    hide CompsOk, LeadsBack, IsScc;
    var p :| IsPathFromTo(g, p, a, b);
    var k := Descends(g, comps, all, p, i, |p| - 1);
    SameList(g, comps, all, b, j, k);
    ComponentIsMutual(g, comps, all, a, b, i);
    if j != i && Reach(g, b, a) {
      SameList(g, comps, all, b, i, j);
    }
  }

  lemma StepDown(g: Graph, comps: seq<seq<nat>>, all: set<nat>, m: nat, a: nat, b: nat) returns (k: nat)
    requires CompsOk(g, comps, all) && m < |comps| && a in comps[m] && Edge(g, a, b)
    ensures k <= m && b in comps[k]
  {
    hide CompsOk, Edge;
    LeadsAt(g, comps, all, m);
    k :| 0 <= k <= m && b in comps[k];
  }

  lemma LeadsAt(g: Graph, comps: seq<seq<nat>>, all: set<nat>, i: nat)
    requires CompsOk(g, comps, all) && i < |comps|
    ensures LeadsBack(g, comps, i)
  {
    hide LeadsBack, IsScc;
  }

  lemma SameList(g: Graph, comps: seq<seq<nat>>, all: set<nat>, x: nat, i: nat, j: nat)
    requires CompsOk(g, comps, all) && i < |comps| && j < |comps| && x in comps[i] && x in comps[j]
    ensures i == j
  {
    hide LeadsBack, IsScc;
    assert x in Members(comps[i]) && x in Members(comps[j]);
  }

  lemma {:induction false} Descends(g: Graph, comps: seq<seq<nat>>, all: set<nat>, p: seq<nat>, i: nat, n: nat)
    returns (k: nat)
    requires CompsOk(g, comps, all) && i < |comps| && IsPath(g, p) && p[0] in comps[i] && n < |p|
    ensures k <= i && p[n] in comps[k]
  {
    hide CompsOk, Edge;
    if n == 0 {
      k := i;
    } else {
      var m := Descends(g, comps, all, p, i, n - 1);
      assert Edge(g, p[n - 1], p[n]);
      k := StepDown(g, comps, all, m, p[n - 1], p[n]);
    }
  }

  /** Two blocks are in the same component exactly when each reaches the other. */
  lemma SameComponentIffMutual(g: Graph, comps: seq<seq<nat>>, all: set<nat>, a: nat, b: nat)
    requires CompsOk(g, comps, all) && a in all && b in all
    ensures (exists i :: 0 <= i < |comps| && a in comps[i] && b in comps[i]) <==> Reach(g, a, b) && Reach(g, b, a)
  {
    hide Reach, IsScc;
    var i :| 0 <= i < |comps| && a in comps[i];
    ComponentIsMutual(g, comps, all, a, b, i);
    if j :| 0 <= j < |comps| && a in comps[j] && b in comps[j] {
      ComponentIsMutual(g, comps, all, a, b, j);
    }
  }
}
