/** Block layout (arm64/layout.go): the matched edges as chains, emitted back to back. */
module Layout {
  import opened Graphs
  import opened Matching

  /** How a block ends, as far as falling through matters. */
  datatype Term = Jump(to: nat) | Branch(to: nat, to2: nat) | NoFall

  ghost predicate TermsOk(ts: seq<Term>) {
    forall i :: 0 <= i < |ts| ==> TermOk(ts, ts[i])
  }

  ghost predicate TermOk(ts: seq<Term>, t: Term) {
    match t
    case Jump(to) => to < |ts|
    case Branch(to, to2) => to < |ts| && to2 < |ts|
    case NoFall => true
  }

  /** The blocks that may follow block i, the false arm first; never i itself. */
  function Candidates(t: Term, i: nat): (c: seq<nat>)
    ensures forall v :: v in c <==> v != i && ((t.Jump? && v == t.to) || (t.Branch? && (v == t.to || v == t.to2)))
    ensures t.Branch? && t.to2 != i ==> |c| > 0 && c[0] == t.to2
  {
    match t
    case Jump(to) => if to != i then [to] else []
    case Branch(to, to2) => (if to2 != i then [to2] else []) + (if to != i then [to] else [])
    case NoFall => []
  }

  // ----- orders -----

  ghost predicate Adjacent(order: seq<nat>, u: nat, v: nat) {
    exists i, j :: 0 <= i && j == i + 1 && j < |order| && order[i] == u && order[j] == v
  }

  /** The matched edges lead round s and back to its start. */
  ghost predicate Cycle(m: Mates, s: seq<nat>) {
    && |s| > 0 && Distinct(s) && (forall i :: 0 <= i < |s| ==> s[i] < |m|)
    && (forall i, j :: 0 <= i && j == i + 1 && j < |s| ==> Follows(m, s[i], s[j]))
    && Follows(m, s[|s| - 1], s[0])
  }

  ghost predicate Follows(m: Mates, u: nat, v: nat) {
    v < |m| && m[v] == Some(u)
  }

  ghost predicate LeastOf(s: seq<nat>, v: nat) {
    |s| > 0 && s[0] == v && forall i :: 0 <= i < |s| ==> v <= s[i]
  }

  /** v is the least block of a cycle of matched edges. */
  ghost predicate LeastOnCycle(m: Mates, v: nat) {
    exists s :: Cycle(m, s) && LeastOf(s, v)
  }

  ghost predicate OneSuccessor(m: Mates) {
    && (forall v :: 0 <= v < |m| && m[v].Some? ==> m[v].value < |m|)
    && forall v, w :: 0 <= v < |m| && 0 <= w < |m| && v != w && m[v].Some? ==> m[v] != m[w]
  }

  /** Whole chains have been emitted: nothing matched to an emitted block is missing,
      and matched blocks are adjacent except into the least block of a cycle. */
  ghost predicate Laid(m: Mates, order: seq<nat>) {
    && Distinct(order) && (forall b :: b in order ==> b < |m|)
    && (forall u: nat, v: nat :: Follows(m, u, v) ==> (u in order <==> v in order))
    && (forall u: nat, v: nat :: Follows(m, u, v) && v in order ==> Adjacent(order, u, v) || LeastOnCycle(m, v))
  }

  /** A run of matched edges from its first block. */
  ghost predicate Chain(m: Mates, c: seq<nat>) {
    && |c| > 0 && Distinct(c) && (forall i :: 0 <= i < |c| ==> c[i] < |m|)
    && (forall i, j :: 0 <= i && j == i + 1 && j < |c| ==> Follows(m, c[i], c[j]))
  }

  ghost predicate Ends(m: Mates, u: nat) {
    forall v: nat :: !Follows(m, u, v)
  }

  /** A chain that nothing continues and nothing precedes. */
  ghost predicate Open(m: Mates, c: seq<nat>) {
    Chain(m, c) && c[0] < |m| && m[c[0]].None? && Ends(m, c[|c| - 1])
  }

  ghost predicate Closing(m: Mates, c: seq<nat>) {
    Cycle(m, c) && LeastOf(c, c[0])
  }

  lemma AdjacentAppend(a: seq<nat>, b: seq<nat>, u: nat, v: nat)
    requires Adjacent(a, u, v) || Adjacent(b, u, v)
    ensures Adjacent(a + b, u, v)
  {
    if i, j :| 0 <= i && j == i + 1 && j < |a| && a[i] == u && a[j] == v {
      assert (a + b)[i] == u && (a + b)[j] == v;
    } else {
      var i, j :| 0 <= i && j == i + 1 && j < |b| && b[i] == u && b[j] == v;
      assert (a + b)[i + |a|] == u && (a + b)[j + |a|] == v;
    }
  }

  lemma DistinctAppend(a: seq<nat>, b: seq<nat>)
    requires Distinct(a) && Distinct(b) && forall x :: x in a ==> x !in b
    ensures Distinct(a + b)
  {
    forall i, j | 0 <= i < j < |a + b|
      ensures (a + b)[i] != (a + b)[j]
    {
      if i < |a| <= j {
        assert a[i] in a && b[j - |a|] in b;
      }
    }
  }

  /** Inside a chain an edge joins neighbours, or closes the cycle. */
  lemma ChainEdge(m: Mates, c: seq<nat>, u: nat, v: nat)
    requires OneSuccessor(m) && (Open(m, c) || Closing(m, c)) && Follows(m, u, v)
    ensures u in c <==> v in c
    ensures v in c ==> Adjacent(c, u, v) || LeastOnCycle(m, v)
  {
    if v in c {
      var j :| 0 <= j < |c| && c[j] == v;
      if j > 0 {
        assert Follows(m, c[j - 1], c[j]);
        assert c[j - 1] == u && Adjacent(c, u, v);
      } else {
        assert Closing(m, c);
        assert c[|c| - 1] == u;
      }
    }
    if u in c {
      var i :| 0 <= i < |c| && c[i] == u;
      var j := i + 1;
      if j < |c| {
        assert Follows(m, c[i], c[j]);
      } else {
        assert Follows(m, c[|c| - 1], c[0]);
      }
    }
  }

  lemma ChainLaid(m: Mates, order: seq<nat>, c: seq<nat>)
    requires OneSuccessor(m) && Laid(m, order) && (Open(m, c) || Closing(m, c)) && forall x :: x in order ==> x !in c
    ensures Laid(m, order + c)
  {
    hide Open, Closing, LeastOnCycle, Adjacent;
    var all := order + c;
    ChainBasics(m, c);
    DistinctAppend(order, c);
    forall u: nat, v: nat | Follows(m, u, v)
      ensures u in all <==> v in all
      ensures v in all ==> Adjacent(all, u, v) || LeastOnCycle(m, v)
    {
      ChainEdge(m, c, u, v);
      if v in all && !LeastOnCycle(m, v) {
        AdjacentAppend(order, c, u, v);
      }
    }
  }

  lemma ChainBasics(m: Mates, c: seq<nat>)
    requires Open(m, c) || Closing(m, c)
    ensures |c| > 0 && Distinct(c) && forall b :: b in c ==> b < |m|
  {
  }

  // ----- emitting one chain -----

  ghost predicate IsNext(m: Mates, next: Mates) {
    |next| == |m| && forall u: nat, v: nat :: u < |next| ==> (next[u] == Some(v) <==> Follows(m, u, v))
  }

  ghost predicate PlacedIs(placed: seq<bool>, order: seq<nat>) {
    forall b: nat :: b < |placed| ==> (placed[b] <==> b in order)
  }

  ghost function Left(placed: seq<bool>): (s: set<nat>)
    ensures forall b: nat :: b in s <==> b < |placed| && !placed[b]
  {
    set b | b in Upto(|placed|) && !placed[b]
  }

  lemma ChainGrows(m: Mates, c: seq<nat>, v: nat)
    requires Chain(m, c) && Follows(m, c[|c| - 1], v) && v !in c
    ensures Chain(m, c + [v])
  {
    var d := c + [v];
    forall i, j | 0 <= i && j == i + 1 && j < |d|
      ensures Follows(m, d[i], d[j])
    {
      if j < |c| {
        assert Follows(m, c[i], c[j]);
      }
    }
  }

  /** A chain that runs into an emitted block has come back to its own start. */
  lemma MeetsStart(m: Mates, order: seq<nat>, c: seq<nat>, v: nat)
    requires OneSuccessor(m) && Laid(m, order) && Chain(m, c) && (forall x :: x in order ==> x !in c)
    requires Follows(m, c[|c| - 1], v) && (v in order || v in c)
    ensures v == c[0] && Cycle(m, c)
  {
    assert c[|c| - 1] in c;
    assert v in c;
    var j :| 0 <= j < |c| && c[j] == v;
    assert j == 0 || Follows(m, c[j - 1], c[j]);
  }

  /** Appends the chain from start, stopping at its end or at an emitted block. */
  method EmitChain(ghost m: Mates, next: Mates, order0: seq<nat>, placed0: seq<bool>, start: nat)
    returns (order: seq<nat>, placed: seq<bool>, ghost c: seq<nat>)
    requires OneSuccessor(m) && IsNext(m, next) && Laid(m, order0) && PlacedIs(placed0, order0) && |placed0| == |m|
    requires start < |m| && start !in order0
    ensures order == order0 + c && PlacedIs(placed, order) && |placed| == |m|
    ensures Chain(m, c) && c[0] == start && (forall x :: x in order0 ==> x !in c)
    ensures Cycle(m, c) || Ends(m, c[|c| - 1])
  {
    hide Laid, Chain, Cycle, OneSuccessor;
    order, placed, c := order0 + [start], placed0[start := true], [start];
    OneChain(m, start);
    var cur := next[start];
    while cur.Some? && !placed[cur.value]
      invariant order == order0 + c && PlacedIs(placed, order) && |placed| == |m|
      invariant Chain(m, c) && |c| > 0 && c[0] == start && (forall x :: x in order0 ==> x !in c)
      invariant c[|c| - 1] < |m| && cur == next[c[|c| - 1]] && (cur.Some? ==> cur.value < |m|)
      decreases Left(placed)
    {
      var v := cur.value;
      ChainGrows(m, c, v);
      ghost var was := placed;
      placed := placed[v := true];
      assert v in Left(was) && v !in Left(placed);
      order, c := order + [v], c + [v];
      cur := next[v];
    }
    if cur.Some? {
      MeetsStart(m, order0, c, cur.value);
    }
  }

  lemma OneChain(m: Mates, b: nat)
    requires b < |m|
    ensures Chain(m, [b])
  {
  }

  // ----- blocks left after the heads are on cycles -----

  ghost predicate HeadsPlaced(m: Mates, order: seq<nat>, k: nat) {
    forall b :: 0 <= b < k && b < |m| && m[b].None? ==> b in order
  }

  /** An injective map of a finite set into itself reaches every member. */
  lemma Onto(a: set<nat>, f: map<nat, nat>, u: nat)
    requires Maps(a, a, f) && u in a
    ensures exists x :: x in a && x in f && f[x] == u
  {
    if forall x :: x in a && x in f ==> f[x] != u {
      forall y | y in a
        ensures Into(a - {u}, f, y)
      {
        assert Into(a, f, y);
      }
      InjectiveCount(a, a - {u}, f);
    }
  }

  ghost function NotIn(m: Mates, order: seq<nat>): (s: set<nat>)
    ensures forall b: nat :: b in s <==> b < |m| && b !in order
  {
    set b | b in Upto(|m|) && b !in order
  }

  lemma LeftPrev(m: Mates, order: seq<nat>, b: nat)
    requires OneSuccessor(m) && Laid(m, order) && HeadsPlaced(m, order, |m|) && b in NotIn(m, order)
    ensures m[b].Some? && m[b].value in NotIn(m, order)
  {
    assert Follows(m, m[b].value, b);
  }

  /** With every head emitted, each block left over is followed by a block left over. */
  lemma LeftGoesOn(m: Mates, order: seq<nat>, u: nat)
    requires OneSuccessor(m) && Laid(m, order) && HeadsPlaced(m, order, |m|) && u < |m| && u !in order
    ensures !Ends(m, u)
  {
    hide Laid, HeadsPlaced, NotIn;
    var left := NotIn(m, order);
    var prev: map<nat, nat> := map b | b in left && m[b].Some? :: m[b].value;
    forall b | b in left
      ensures Into(left, prev, b)
    {
      LeftPrev(m, order, b);
    }
    Onto(left, prev, u);
    var b :| b in left && b in prev && prev[b] == u;
    assert Follows(m, u, b);
  }

  lemma OpenChain(m: Mates, c: seq<nat>)
    requires Chain(m, c) && m[c[0]].None? && (Cycle(m, c) || Ends(m, c[|c| - 1]))
    ensures Open(m, c)
  {
  }

  /** In the last pass the chain is a cycle and starts at its least block. */
  lemma CycleChain(m: Mates, order: seq<nat>, c: seq<nat>, k: nat)
    requires OneSuccessor(m) && Laid(m, order) && HeadsPlaced(m, order, |m|) && Chain(m, c) && c[0] == k
    requires (forall x :: x in order ==> x !in c) && forall b: nat :: b < k ==> b in order
    requires Cycle(m, c) || Ends(m, c[|c| - 1])
    ensures Closing(m, c)
  {
    assert c[|c| - 1] in c;
    LeftGoesOn(m, order, c[|c| - 1]);
    forall i | 0 <= i < |c|
      ensures k <= c[i]
    {
      assert c[i] in c;
    }
  }

  /** The successor of each block and which blocks have a predecessor. */
  method Invert(m: Mates) returns (next: Mates, hasPrev: seq<bool>)
    requires OneSuccessor(m)
    ensures IsNext(m, next) && |hasPrev| == |m| && forall v :: 0 <= v < |m| ==> (hasPrev[v] <==> m[v].Some?)
  {
    next, hasPrev := seq(|m|, _ => None), seq(|m|, _ => false);
    for v := 0 to |m|
      invariant |next| == |m| == |hasPrev|
      invariant forall u: nat, w: nat :: u < |m| ==> (next[u] == Some(w) <==> w < v && Follows(m, u, w))
      invariant forall w :: 0 <= w < |m| ==> (hasPrev[w] <==> w < v && m[w].Some?)
    {
      if m[v].Some? {
        next := next[m[v].value := Some(v)];
        hasPrev := hasPrev[v := true];
      }
    }
  }

  /** Emits every chain: the entry's, then those with a head, then the cycles. */
  method EmitChains(m: Mates, entry: nat) returns (order: seq<nat>)
    requires OneSuccessor(m) && entry < |m| && m[entry].None?
    ensures Laid(m, order) && (forall b: nat :: b in order <==> b < |m|) && |order| > 0 && order[0] == entry
  {
    hide Laid, Chain, Cycle, OneSuccessor, IsNext;
    var next, hasPrev := Invert(m);
    var placed := seq(|m|, _ => false);
    ghost var c;
    NothingLaid(m);
    order, placed, c := EmitChain(m, next, [], placed, entry);
    OpenChain(m, c);
    ChainLaid(m, [], c);
    assert [] + c == c;
    ChainHead(m, c);
    for i := 0 to |m|
      invariant Laid(m, order) && PlacedIs(placed, order) && |placed| == |m| && |order| > 0 && order[0] == entry
      invariant HeadsPlaced(m, order, i)
    {
      if !placed[i] && !hasPrev[i] {
        ghost var before := order;
        order, placed, c := EmitChain(m, next, order, placed, i);
        ChainHead(m, c);
        OpenChain(m, c);
        ChainLaid(m, before, c);
        assert c[0] in order;
      }
    }
    for i := 0 to |m|
      invariant Laid(m, order) && PlacedIs(placed, order) && |placed| == |m| && |order| > 0 && order[0] == entry
      invariant HeadsPlaced(m, order, |m|) && forall b: nat :: b < i ==> b in order
    {
      if !placed[i] {
        ghost var before := order;
        order, placed, c := EmitChain(m, next, order, placed, i);
        ChainHead(m, c);
        CycleChain(m, before, c, i);
        ChainLaid(m, before, c);
        assert c[0] in order;
      }
    }
    LaidInRange(m, order);
  }

  lemma NothingLaid(m: Mates)
    ensures Laid(m, [])
  {
  }

  lemma ChainHead(m: Mates, c: seq<nat>)
    requires Chain(m, c)
    ensures |c| > 0 && c[0] in c && c[0] < |m|
  {
  }

  lemma LaidInRange(m: Mates, order: seq<nat>)
    requires Laid(m, order)
    ensures Distinct(order) && forall b :: b in order ==> b < |m|
  {
  }

  // ----- which matched edges are lost -----

  /** A cycle is closed under following matched edges. */
  lemma CycleGoesOn(m: Mates, s: seq<nat>, u: nat, v: nat)
    requires OneSuccessor(m) && Cycle(m, s) && u in s && Follows(m, u, v)
    ensures v in s
  {
    var i :| 0 <= i < |s| && s[i] == u;
    var j := i + 1;
    if j < |s| {
      assert Follows(m, s[i], s[j]);
    } else {
      assert Follows(m, s[|s| - 1], s[0]);
    }
  }

  lemma {:induction false} CycleCatches(m: Mates, s: seq<nat>, t: seq<nat>, k: nat)
    requires OneSuccessor(m) && Cycle(m, s) && Cycle(m, t) && k < |s| && s[k] in t
    ensures s[0] in t
    decreases |s| - k
  {
    var j := k + 1;
    if j < |s| {
      assert Follows(m, s[k], s[j]);
      CycleGoesOn(m, t, s[k], s[j]);
      CycleCatches(m, s, t, j);
    } else {
      CycleGoesOn(m, t, s[k], s[0]);
    }
  }

  /** Only one block of a cycle is its least. */
  lemma OneLeast(m: Mates, s: seq<nat>, k: nat)
    requires OneSuccessor(m) && Cycle(m, s) && LeastOf(s, s[0]) && k < |s| && LeastOnCycle(m, s[k])
    ensures k == 0
  {
    var t :| Cycle(m, t) && LeastOf(t, s[k]);
    assert t[0] in t;
    CycleCatches(m, s, t, k);
    var i :| 0 <= i < |t| && t[i] == s[0];
    assert s[k] <= t[i];
  }

  /** Round a cycle from its least block, the order goes on step by step. */
  lemma {:induction false} CycleRunsOn(m: Mates, order: seq<nat>, s: seq<nat>, at: nat, k: nat)
    requires OneSuccessor(m) && Laid(m, order) && (forall b: nat :: b < |m| ==> b in order)
    requires Cycle(m, s) && LeastOf(s, s[0]) && at < |order| && order[at] == s[0] && k < |s|
    ensures at + k < |order| && order[at + k] == s[k]
  {
    if k > 0 {
      CycleRunsOn(m, order, s, at, k - 1);
      var i := k - 1;
      assert Follows(m, s[i], s[k]);
      if LeastOnCycle(m, s[k]) {
        OneLeast(m, s, k);
      }
      assert Adjacent(order, s[i], s[k]);
    }
  }

  /** Every matched edge is a fall-through, except exactly the one into the least block
      of each cycle. */
  lemma LostExactly(m: Mates, order: seq<nat>, u: nat, v: nat)
    requires OneSuccessor(m) && Laid(m, order) && (forall b: nat :: b < |m| ==> b in order) && Follows(m, u, v)
    ensures !Adjacent(order, u, v) <==> LeastOnCycle(m, v)
  {
    assert v in order;
    if s :| Cycle(m, s) && LeastOf(s, v) {
      var at :| 0 <= at < |order| && order[at] == v;
      CycleRunsOn(m, order, s, at, |s| - 1);
      assert Follows(m, s[|s| - 1], s[0]);
      assert order[at + |s| - 1] == u;
      forall i, j | 0 <= i && j == i + 1 && j < |order| && order[i] == u
        ensures order[j] != v
      {
        assert i == at + |s| - 1;
      }
    }
  }

  // ----- the whole layout -----

  /** The fall-throughs an order realises. */
  ghost function Realised(cand: seq<seq<nat>>, order: seq<nat>): (e: set<(nat, nat)>)
    ensures forall u: nat, v: nat :: (u, v) in e <==> Adjacent(order, u, v) && u < |cand| && v in cand[u]
  {
    var pairs := set i | i in Upto(|order|) && i + 1 < |order| :: (order[i], order[i + 1]);
    PairsAdjacent(order, pairs);
    set p | p in pairs && p.0 < |cand| && p.1 in cand[p.0]
  }

  lemma PairsAdjacent(order: seq<nat>, pairs: set<(nat, nat)>)
    requires pairs == set i | i in Upto(|order|) && i + 1 < |order| :: (order[i], order[i + 1])
    ensures forall u: nat, v: nat :: (u, v) in pairs <==> Adjacent(order, u, v)
  {
    forall u: nat, v: nat
      ensures (u, v) in pairs <==> Adjacent(order, u, v)
    {
      if i, j :| 0 <= i && j == i + 1 && j < |order| && order[i] == u && order[j] == v {
        assert i in Upto(|order|);
      }
    }
  }

  /** No order that starts at the entry realises more fall-throughs than are matched. */
  lemma NoOrderBeats(cand: seq<seq<nat>>, entry: nat, m: Mates, dead: set<nat>, order: seq<nat>)
    requires Progress(cand, entry, m, dead, |cand|) && Distinct(order) && |order| > 0 && order[0] == entry
    ensures |Realised(cand, order)| <= |Edges(m)|
  {
    hide Progress;
    var e := Realised(cand, order);
    forall p | p in e
      ensures Allowed(cand, entry, p.0, p.1)
    {
      assert Adjacent(order, p.0, p.1);
    }
    forall p, q | p in e && q in e && (p.0 == q.0 || p.1 == q.1)
      ensures p == q
    {
      assert Adjacent(order, p.0, p.1) && Adjacent(order, q.0, q.1);
    }
    MatchingIsMaximum(cand, entry, m, dead, e);
  }

  /** The least block of each cycle of matched edges: one per cycle. */
  ghost function CycleHeads(m: Mates): (s: set<nat>)
    ensures forall v: nat :: v in s <==> v < |m| && LeastOnCycle(m, v)
  {
    set v | v in Upto(|m|) && LeastOnCycle(m, v)
  }

  /** The matched edges into those blocks. */
  ghost function Closers(m: Mates): (e: set<(nat, nat)>)
    ensures forall u: nat, v: nat :: (u, v) in e <==> Follows(m, u, v) && LeastOnCycle(m, v)
  {
    set v | v in Upto(|m|) && m[v].Some? && LeastOnCycle(m, v) :: (m[v].value, v)
  }

  lemma {:induction false} OneCloserEach(e: set<(nat, nat)>, heads: set<nat>, m: Mates)
    requires forall p :: p in e ==> Follows(m, p.0, p.1) && p.1 in heads
    ensures |e| <= |heads|
    decreases e
  {
    if e != {} {
      var p :| p in e;
      OneCloserEach(e - {p}, heads - {p.1}, m);
    }
  }

  /** The emitted order falls through on every matched edge but one per cycle, so is
      short of the best by at most the number of cycles, and without cycles is best. */
  lemma RealisesAllButCycles(cand: seq<seq<nat>>, entry: nat, m: Mates, dead: set<nat>, order: seq<nat>)
    requires Progress(cand, entry, m, dead, |cand|) && OneSuccessor(m) && Laid(m, order) && (forall b: nat :: b < |m| ==> b in order)
    requires Distinct(order) && |order| > 0 && order[0] == entry
    ensures |Edges(m)| - |CycleHeads(m)| <= |Realised(cand, order)| <= |Edges(m)|
  {
    hide Progress, Laid, LeastOnCycle, Adjacent, OneSuccessor, Distinct;
    NoOrderBeats(cand, entry, m, dead, order);
    var kept := Edges(m) - Closers(m);
    forall p | p in kept
      ensures p in Realised(cand, order)
    {
      LostExactly(m, order, p.0, p.1);
      MatchedIsCandidate(cand, entry, m, dead, p.0, p.1);
    }
    SubsetSize(kept, Realised(cand, order));
    forall p | p in Closers(m)
      ensures Follows(m, p.0, p.1) && p.1 in CycleHeads(m)
    {
    }
    OneCloserEach(Closers(m), CycleHeads(m), m);
    assert Closers(m) <= Edges(m);
    assert |kept| == |Edges(m)| - |Closers(m)|;
  }

  lemma MatchedIsCandidate(cand: seq<seq<nat>>, entry: nat, m: Mates, dead: set<nat>, u: nat, v: nat)
    requires Progress(cand, entry, m, dead, |cand|) && Follows(m, u, v)
    ensures u < |cand| && v in cand[u]
  {
    assert MateOk(cand, entry, m, v);
  }

  lemma PairCand(order: seq<nat>, cand: seq<seq<nat>>, m: Mates)
    requires IsLayout([NoFall, Jump(2), Jump(1)], 0, cand, m, order)
    ensures forall u: nat, v: nat :: u < |cand| && v in cand[u] <==> (u, v) == (1, 2) || (u, v) == (2, 1)
  {
    hide Maximum, FromEntry, LeastOnCycle, Adjacent, Edges;
    assert cand[0] == Candidates(NoFall, 0) && cand[1] == Candidates(Jump(2), 1) && cand[2] == Candidates(Jump(1), 2);
  }

  lemma BothPairs(e: set<(nat, nat)>)
    requires |e| >= 2 && forall p :: p in e ==> p == (1, 2) || p == (2, 1)
    ensures (1, 2) in e && (2, 1) in e
  {
    if (1, 2) !in e {
      SubsetSize(e, {(2, 1)});
    }
    if (2, 1) !in e {
      SubsetSize(e, {(1, 2)});
    }
  }

  lemma PairMates(cand: seq<seq<nat>>, m: Mates)
    requires forall u: nat, v: nat :: u < |cand| && v in cand[u] <==> (u, v) == (1, 2) || (u, v) == (2, 1)
    requires Maximum(cand, 0, m)
    ensures (1, 2) in Edges(m) && (2, 1) in Edges(m)
  {
    hide Edges;
    var e: set<(nat, nat)> := {(1, 2), (2, 1)};
    forall p: (nat, nat)
      ensures Allowed(cand, 0, p.0, p.1) <==> p in e
    {
      assert p == (p.0, p.1);
    }
    PairAllowed(cand);
    BothPairs(Edges(m));
  }

  lemma PairAllowed(cand: seq<seq<nat>>)
    requires forall p: (nat, nat) :: Allowed(cand, 0, p.0, p.1) <==> p in {(1, 2), (2, 1)}
    ensures FallThroughs(cand, 0, {(1, 2), (2, 1)}) && |{(1, 2), (2, 1)}| == 2
  {
    hide Allowed;
  }

  /** A cycle need not cost: with two blocks that can only follow each other the layout
      is best. */
  lemma CycleHarmless(order: seq<nat>, cand: seq<seq<nat>>, m: Mates)
    requires IsLayout([NoFall, Jump(2), Jump(1)], 0, cand, m, order)
    ensures FallCycle([NoFall, Jump(2), Jump(1)], 0, [1, 2]) && Best(cand, 0, order)
  {
    hide Adjacent, LeastOnCycle, Edges, Realised;
    PairCand(order, cand, m);
    PairMates(cand, m);
    PairCycle(m, 1, 2);
    assert (1, 2) in Realised(cand, order);
    SubsetSize({(1, 2)}, Realised(cand, order));
    forall other: seq<nat> | FromEntry(0, other)
      ensures |Realised(cand, other)| <= |Realised(cand, order)|
    {
      if Adjacent(other, 1, 2) {
        NotBothWays(other, 1, 2);
      }
      forall p | p in Realised(cand, other)
        ensures p == if Adjacent(other, 1, 2) then (1, 2) else (2, 1)
      {
        assert p == (p.0, p.1);
      }
      SubsetSize(Realised(cand, other), {if Adjacent(other, 1, 2) then (1, 2) else (2, 1)});
    }
  }

  lemma NotBothWays(order: seq<nat>, u: nat, v: nat)
    requires Distinct(order) && Adjacent(order, u, v)
    ensures !Adjacent(order, v, u)
  {
  }

  lemma MatesOneSuccessor(cand: seq<seq<nat>>, entry: nat, m: Mates, dead: set<nat>)
    requires Progress(cand, entry, m, dead, |cand|) && entry < |cand|
    ensures |m| == |cand| && OneSuccessor(m) && m[entry].None?
  {
    assert MateOk(cand, entry, m, entry);
    forall v | 0 <= v < |m| && m[v].Some?
      ensures m[v].value < |m|
    {
      assert MateOk(cand, entry, m, v);
    }
  }

  /** Every allowed set of fall-throughs is at most as large as the matching. */
  ghost predicate Maximum(cand: seq<seq<nat>>, entry: nat, m: Mates) {
    FallThroughs(cand, entry, Edges(m)) && forall e :: FallThroughs(cand, entry, e) ==> |e| <= |Edges(m)|
  }

  ghost predicate FromEntry(entry: nat, order: seq<nat>) {
    Distinct(order) && |order| > 0 && order[0] == entry
  }

  /** What the layout is: all blocks once, the entry first, and the edges of a maximum
      matching fall through but for the one into the least block of each cycle. */
  ghost predicate IsLayout(ts: seq<Term>, entry: nat, cand: seq<seq<nat>>, m: Mates, order: seq<nat>) {
    && |cand| == |ts| == |m| && (forall i :: 0 <= i < |ts| ==> cand[i] == Candidates(ts[i], i))
    && FromEntry(entry, order) && (forall b: nat :: b in order <==> b < |ts|)
    && Maximum(cand, entry, m)
    && (forall u: nat, v: nat :: (u, v) in Edges(m) ==> (Adjacent(order, u, v) <==> !LeastOnCycle(m, v)))
  }

  /** No order from the entry falls through more often. */
  ghost predicate Best(cand: seq<seq<nat>>, entry: nat, order: seq<nat>) {
    forall other: seq<nat> :: FromEntry(entry, other) ==> |Realised(cand, other)| <= |Realised(cand, order)|
  }

  /** The emission order. It is best when no block can fall through back to itself. */
  method LayoutBlocks(ts: seq<Term>, entry: nat) returns (order: seq<nat>, ghost cand: seq<seq<nat>>, ghost m: Mates)
    requires TermsOk(ts) && entry < |ts|
    ensures IsLayout(ts, entry, cand, m, order)
    ensures forall other: seq<nat> :: FromEntry(entry, other) ==> |Realised(cand, other)| <= |Edges(m)|
    ensures |Edges(m)| - |CycleHeads(m)| <= |Realised(cand, order)| <= |Edges(m)|
    ensures (forall s :: !FallCycle(ts, entry, s)) ==> Best(cand, entry, order)
  {
    hide CycleHeads, Progress, Laid, OneSuccessor, LeastOnCycle, Adjacent, FallThroughs, Realised, ValidMates, FallCycle;
    var cands: seq<seq<nat>> := [];
    for i := 0 to |ts|
      invariant |cands| == i && forall j :: 0 <= j < i ==> cands[j] == Candidates(ts[j], j)
    {
      cands := cands + [Candidates(ts[i], i)];
    }
    CandidatesOk(ts, cands);
    var mates;
    ghost var dead;
    mates, dead := MatchBlocks(cands, entry);
    cand, m := cands, mates;
    MatesOneSuccessor(cand, entry, m, dead);
    order := EmitChains(mates, entry);
    LaidInRange(m, order);
    MatchedIsMaximum(cand, entry, m, dead);
    RealisesAllButCycles(cand, entry, m, dead, order);
    forall u: nat, v: nat | (u, v) in Edges(m)
      ensures Adjacent(order, u, v) <==> !LeastOnCycle(m, v)
    {
      LostExactly(m, order, u, v);
    }
    forall other: seq<nat> | FromEntry(entry, other)
      ensures |Realised(cand, other)| <= |Edges(m)|
    {
      NoOrderBeats(cand, entry, m, dead, other);
    }
    if forall s :: !FallCycle(ts, entry, s) {
      NoCycleHeads(ts, entry, cand, m);
    }
  }

  lemma MatchedIsMaximum(cand: seq<seq<nat>>, entry: nat, m: Mates, dead: set<nat>)
    requires Progress(cand, entry, m, dead, |cand|)
    ensures Maximum(cand, entry, m)
  {
    hide Progress, FallThroughs, ValidMates;
    ProgressValid(cand, entry, m, dead);
    EdgesFallThrough(cand, entry, m);
    forall e | FallThroughs(cand, entry, e)
      ensures |e| <= |Edges(m)|
    {
      MatchingIsMaximum(cand, entry, m, dead, e);
    }
  }

  // ----- when the layout is best -----

  /** v may be laid out right after u, by the terminators alone. */
  ghost predicate FallsTo(ts: seq<Term>, entry: nat, u: nat, v: nat) {
    u < |ts| && v in Candidates(ts[u], u) && v != entry
  }

  /** Blocks that could each fall through to the next, and the last to the first. */
  ghost predicate FallCycle(ts: seq<Term>, entry: nat, s: seq<nat>) {
    && |s| > 0 && (forall i, j :: 0 <= i && j == i + 1 && j < |s| ==> FallsTo(ts, entry, s[i], s[j]))
    && FallsTo(ts, entry, s[|s| - 1], s[0])
  }

  lemma MatchedFalls(ts: seq<Term>, entry: nat, cand: seq<seq<nat>>, m: Mates, u: nat, v: nat)
    requires |cand| == |ts| && (forall i :: 0 <= i < |ts| ==> cand[i] == Candidates(ts[i], i))
    requires FallThroughs(cand, entry, Edges(m)) && Follows(m, u, v)
    ensures FallsTo(ts, entry, u, v)
  {
    assert (u, v) in Edges(m);
    assert Allowed(cand, entry, u, v);
  }

  /** A cycle of matched edges is a cycle of possible fall-throughs. */
  lemma NoCycleHeads(ts: seq<Term>, entry: nat, cand: seq<seq<nat>>, m: Mates)
    requires |cand| == |ts| && (forall i :: 0 <= i < |ts| ==> cand[i] == Candidates(ts[i], i))
    requires Maximum(cand, entry, m) && forall s :: !FallCycle(ts, entry, s)
    ensures |CycleHeads(m)| == 0
  {
    hide FallThroughs, FallsTo;
    forall v, s | Cycle(m, s) && LeastOf(s, v)
      ensures FallCycle(ts, entry, s)
    {
      forall i, j | 0 <= i && j == i + 1 && j < |s|
        ensures FallsTo(ts, entry, s[i], s[j])
      {
        MatchedFalls(ts, entry, cand, m, s[i], s[j]);
      }
      MatchedFalls(ts, entry, cand, m, s[|s| - 1], s[0]);
    }
    assert CycleHeads(m) == {};
  }

  // ----- a layout that is not best -----

  /** The entry branches through a table; 1 and 2 can follow each other, as can 3 and 4,
      and 1 can also follow 3. */
  function TwoCycles(): seq<Term> {
    [NoFall, Jump(2), Jump(1), Branch(1, 4), Jump(3)]
  }

  /** Who may precede whom. */
  lemma TwoCyclesFalls(cand: seq<seq<nat>>, u: nat, v: nat)
    requires cand == [[], [2], [1], [4, 1], [3]]
    ensures Allowed(cand, 0, u, v) <==> (u, v) == (1, 2) || (u, v) == (2, 1) || (u, v) == (3, 4) || (u, v) == (3, 1) || (u, v) == (4, 3)
  {
  }

  lemma TwoCyclesCand(order: seq<nat>, cand: seq<seq<nat>>, m: Mates)
    requires IsLayout(TwoCycles(), 0, cand, m, order)
    ensures cand == [[], [2], [1], [4, 1], [3]]
  {
    hide Maximum, FromEntry, LeastOnCycle, Adjacent, Edges;
    var ts := TwoCycles();
    assert ts[0] == NoFall && ts[1] == Jump(2) && ts[2] == Jump(1) && ts[3] == Branch(1, 4) && ts[4] == Jump(3);
    assert cand[0] == [] && cand[1] == [2] && cand[2] == [1] && cand[3] == [4, 1] && cand[4] == [3];
  }

  /** Edges into different blocks are no more than those blocks. */
  lemma OneInto(e: set<(nat, nat)>, into: set<nat>)
    requires forall p :: p in e ==> p.1 in into
    requires forall p, q :: p in e && q in e && p.1 == q.1 ==> p == q
    ensures |e| <= |into|
  {
    var f := map p | p in e :: p.1;
    forall p | p in e
      ensures Into(into, f, p)
    {
    }
    InjectiveCount(e, into, f);
  }

  /** Four edges into 1 to 4 leave none of these out. */
  lemma AllEntered(e: set<(nat, nat)>, v: nat) returns (u: nat)
    requires |e| >= 4 && 1 <= v <= 4 && forall p :: p in e ==> 1 <= p.1 <= 4
    requires forall p, q :: p in e && q in e && p.1 == q.1 ==> p == q
    ensures (u, v) in e
  {
    if forall p :: p in e ==> p.1 != v {
      OneInto(e, {1, 2, 3, 4} - {v});
    }
    var p :| p in e && p.1 == v;
    u := p.0;
    assert p == (u, v);
  }

  /** Four of the five edges, no two from or into one block. */
  lemma ForcedEdges(e: set<(nat, nat)>)
    requires |e| >= 4 && forall p :: p in e ==> p in {(1, 2), (2, 1), (3, 4), (4, 3), (3, 1)}
    requires forall p, q :: p in e && q in e && (p.0 == q.0 || p.1 == q.1) ==> p == q
    ensures e == {(1, 2), (2, 1), (3, 4), (4, 3)}
  {
    var u2 := AllEntered(e, 2);
    var u4 := AllEntered(e, 4);
    var u3 := AllEntered(e, 3);
    assert (3, 4) in e && (3, 1) !in e;
    var u1 := AllEntered(e, 1);
  }

  lemma TwoCyclesAllowed(cand: seq<seq<nat>>)
    requires cand == [[], [2], [1], [4, 1], [3]]
    ensures FallThroughs(cand, 0, {(1, 2), (2, 1), (3, 4), (4, 3)})
  {
    var e: set<(nat, nat)> := {(1, 2), (2, 1), (3, 4), (4, 3)};
    forall p | p in e
      ensures Allowed(cand, 0, p.0, p.1)
    {
      TwoCyclesFalls(cand, p.0, p.1);
    }
  }

  /** Only one matching is maximum. */
  lemma TwoCyclesMates(cand: seq<seq<nat>>, m: Mates)
    requires cand == [[], [2], [1], [4, 1], [3]] && Maximum(cand, 0, m)
    ensures Edges(m) == {(1, 2), (2, 1), (3, 4), (4, 3)}
  {
    hide Allowed, Edges;
    TwoCyclesAllowed(cand);
    var e: set<(nat, nat)> := {(1, 2), (2, 1), (3, 4), (4, 3)};
    assert |e| == 4;
    forall p | p in Edges(m)
      ensures p in {(1, 2), (2, 1), (3, 4), (4, 3), (3, 1)}
    {
      TwoCyclesFalls(cand, p.0, p.1);
      assert p == (p.0, p.1);
    }
    ForcedEdges(Edges(m));
  }

  /** Two blocks matched both ways: the lesser is the least of their cycle. */
  lemma PairCycle(m: Mates, u: nat, v: nat)
    requires u < v < |m| && Follows(m, u, v) && Follows(m, v, u)
    ensures LeastOnCycle(m, u) && !LeastOnCycle(m, v)
  {
    assert Cycle(m, [u, v]) && LeastOf([u, v], u);
    forall s | Cycle(m, s) && s[0] == v
      ensures !LeastOf(s, v)
    {
      assert s[|s| - 1] == u;
    }
  }

  lemma OneAfter(order: seq<nat>, u: nat, v: nat, w: nat)
    requires Distinct(order) && Adjacent(order, u, v) && Adjacent(order, u, w)
    ensures v == w
  {
  }

  lemma TwoCyclesOrder(cand: seq<seq<nat>>, order: seq<nat>)
    requires cand == [[], [2], [1], [4, 1], [3]] && Distinct(order)
    requires Adjacent(order, 1, 2) && Adjacent(order, 3, 4) && !Adjacent(order, 2, 1) && !Adjacent(order, 4, 3)
    ensures Realised(cand, order) == {(1, 2), (3, 4)}
  {
    hide Adjacent;
    forall p: (nat, nat)
      ensures p in Realised(cand, order) <==> p in {(1, 2), (3, 4)}
    {
      TwoCyclesFalls(cand, p.0, p.1);
      if Adjacent(order, 3, 1) {
        OneAfter(order, 3, 4, 1);
      }
      assert p == (p.0, p.1);
    }
  }

  lemma BetterPairs(u: nat, v: nat)
    ensures Adjacent([0, 4, 3, 1, 2], u, v) <==> (u, v) == (0, 4) || (u, v) == (4, 3) || (u, v) == (3, 1) || (u, v) == (1, 2)
  {
    var order: seq<nat> := [0, 4, 3, 1, 2];
    assert Adjacent(order, order[0], order[1]) && Adjacent(order, order[1], order[2]);
    assert Adjacent(order, order[2], order[3]) && Adjacent(order, order[3], order[4]);
  }

  lemma BetterOrder(cand: seq<seq<nat>>)
    requires cand == [[], [2], [1], [4, 1], [3]]
    ensures FromEntry(0, [0, 4, 3, 1, 2]) && Realised(cand, [0, 4, 3, 1, 2]) == {(4, 3), (3, 1), (1, 2)}
  {
    hide Adjacent;
    forall p: (nat, nat)
      ensures p in Realised(cand, [0, 4, 3, 1, 2]) <==> p in {(4, 3), (3, 1), (1, 2)}
    {
      BetterPairs(p.0, p.1);
      TwoCyclesFalls(cand, p.0, p.1);
      assert p == (p.0, p.1);
    }
  }

  /** The layout of such blocks, whatever the search did, falls through twice; another
      order falls through three times. */
  lemma CycleCosts(order: seq<nat>, cand: seq<seq<nat>>, m: Mates)
    requires IsLayout(TwoCycles(), 0, cand, m, order)
    ensures Realised(cand, order) == {(1, 2), (3, 4)}
    ensures FromEntry(0, [0, 4, 3, 1, 2]) && Realised(cand, [0, 4, 3, 1, 2]) == {(4, 3), (3, 1), (1, 2)}
    ensures !Best(cand, 0, order)
  {
    hide Adjacent, LeastOnCycle, Realised, Edges;
    TwoCyclesCand(order, cand, m);
    TwoCyclesMates(cand, m);
    assert |m| == 5;
    assert (1, 2) in Edges(m) && (2, 1) in Edges(m) && (3, 4) in Edges(m) && (4, 3) in Edges(m);
    PairCycle(m, 1, 2);
    PairCycle(m, 3, 4);
    assert Adjacent(order, 1, 2) && Adjacent(order, 3, 4) && !Adjacent(order, 2, 1) && !Adjacent(order, 4, 3);
    TwoCyclesOrder(cand, order);
    BetterOrder(cand);
    assert |{(1, 2), (3, 4)}| == 2 && |{(4, 3), (3, 1), (1, 2)}| == 3;
  }

  lemma ProgressValid(cand: seq<seq<nat>>, entry: nat, m: Mates, dead: set<nat>)
    requires Progress(cand, entry, m, dead, |cand|)
    ensures ValidMates(cand, entry, m)
  {
  }

  lemma CandidatesOk(ts: seq<Term>, cand: seq<seq<nat>>)
    requires TermsOk(ts) && |cand| == |ts| && forall i :: 0 <= i < |ts| ==> cand[i] == Candidates(ts[i], i)
    ensures CandsOk(cand)
  {
    forall u, j | 0 <= u < |cand| && 0 <= j < |cand[u]|
      ensures cand[u][j] < |cand|
    {
      assert cand[u][j] in Candidates(ts[u], u);
      assert TermOk(ts, ts[u]);
    }
  }
}
