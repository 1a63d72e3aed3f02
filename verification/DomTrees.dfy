/** The dominator tree (analysis/dom.go), specified by paths through the graph. */
module DomTrees {
  import opened Graphs
  import opened Cfg
  import T = DomTheory

  /** a lies on every path from s to b. */
  ghost predicate PathDom(g: Graph, s: nat, a: nat, b: nat) {
    forall p :: IsPathFromTo(g, p, s, b) ==> a in p
  }

  ghost predicate ImmediateDom(g: Graph, s: nat, p: nat, b: nat) {
    && p != b && PathDom(g, s, p, b)
    && forall a: nat :: a != b && PathDom(g, s, a, b) ==> PathDom(g, s, a, p)
  }

  datatype DomTree = DomTree(idom: map<nat, Option<nat>>) {
    function Idom(b: nat): Option<nat> {
      if b in idom then idom[b] else None
    }
  }

  /** Covers the blocks of the order; the entry has no parent and every other block's
      parent is its immediate dominator, placed earlier in the order. */
  ghost predicate IsDomTree(g: Graph, rpo: seq<nat>, d: DomTree) {
    && (forall b :: b in d.idom <==> b in rpo)
    && (rpo != [] ==> d.idom[rpo[0]] == None)
    && forall i :: 0 < i < |rpo| ==> IdomAt(g, rpo, d, i)
  }

  ghost predicate IdomAt(g: Graph, rpo: seq<nat>, d: DomTree, i: nat)
    requires 0 < i < |rpo|
  {
    && rpo[i] in d.idom && d.idom[rpo[i]].Some?
    && (exists j :: 0 <= j < i && rpo[j] == d.idom[rpo[i]].value)
    && ImmediateDom(g, rpo[0], d.idom[rpo[i]].value, rpo[i])
  }

  lemma PathDomTrans(g: Graph, s: nat, a: nat, b: nat, c: nat)
    requires PathDom(g, s, a, b) && PathDom(g, s, b, c)
    ensures PathDom(g, s, a, c)
  {
    forall p | IsPathFromTo(g, p, s, c)
      ensures a in p
    {
      var k :| 0 <= k < |p| && p[k] == b;
      PathPrefix(g, p, k);
    }
  }

  lemma PathDomRefl(g: Graph, s: nat, a: nat)
    ensures PathDom(g, s, a, a)
  {
    forall p | IsPathFromTo(g, p, s, a)
      ensures a in p
    {
      assert p[|p| - 1] in p;
    }
  }

  lemma OnlyEntryDominatesEntry(g: Graph, s: nat, a: nat)
    requires PathDom(g, s, a, s)
    ensures a == s
  {
    assert IsPathFromTo(g, [s], s, s);
  }

  // ----- between numbers and blocks -----

  ghost function NumberPreds(g: Graph, rpo: seq<nat>): (ps: T.Preds)
    ensures |ps| == |rpo|
    ensures forall k: nat, p: nat :: k < |ps| ==> (p in ps[k] <==> p < |rpo| && Edge(g, rpo[p], rpo[k]))
  {
    seq(|rpo|, k requires 0 <= k < |rpo| => set p | p in Upto(|rpo|) && Edge(g, rpo[p], rpo[k]))
  }

  ghost function TreeParents(g: Graph, rpo: seq<nat>): (tp: seq<nat>)
    requires forall i :: 0 < i < |rpo| ==> EarlierPred(g, rpo, i)
    ensures |tp| == |rpo|
    ensures forall k :: 0 < k < |tp| ==> tp[k] < k && Edge(g, rpo[tp[k]], rpo[k])
  {
    seq(|rpo|, i requires 0 <= i < |rpo| =>
      if i == 0 then 0 else assert EarlierPred(g, rpo, i); var j: nat :| j < i && Edge(g, rpo[j], rpo[i]); j)
  }

  lemma RpoIsRooted(g: Graph, start: Option<nat>, rpo: seq<nat>)
    requires IsRpo(g, start, rpo) && start.Some?
    ensures T.Rooted(NumberPreds(g, rpo), TreeParents(g, rpo))
  {
  }

  ghost function Indices(rpo: seq<nat>, p: seq<nat>): (q: seq<nat>)
    requires forall b :: b in p ==> b in rpo
    ensures |q| == |p| && forall i :: 0 <= i < |q| ==> q[i] < |rpo| && rpo[q[i]] == p[i]
  {
    if p == [] then [] else
      assert p[0] in p;
      var i: nat :| i < |rpo| && rpo[i] == p[0];
      [i] + Indices(rpo, p[1..])
  }

  lemma PathStaysInRpo(g: Graph, start: Option<nat>, rpo: seq<nat>, p: seq<nat>)
    requires IsRpo(g, start, rpo) && start.Some? && IsPath(g, p) && p[0] == start.value
    ensures forall b :: b in p ==> b in rpo
  {
    forall b | b in p
      ensures b in rpo
    {
      var k :| 0 <= k < |p| && p[k] == b;
      PathPrefix(g, p, k);
    }
  }

  lemma PathIsWalk(g: Graph, start: Option<nat>, rpo: seq<nat>, p: seq<nat>, k: nat)
    requires IsRpo(g, start, rpo) && start.Some? && k < |rpo| && IsPathFromTo(g, p, rpo[0], rpo[k])
    requires forall b :: b in p ==> b in rpo
    ensures T.Walk(NumberPreds(g, rpo), Indices(rpo, p), k)
  {
    var q := Indices(rpo, p);
    var ps := NumberPreds(g, rpo);
    assert rpo[q[0]] == rpo[0] && rpo[q[|q| - 1]] == rpo[k];
    forall i, j | 0 <= i && j == i + 1 && j < |q|
      ensures q[i] in ps[q[j]]
    {
      assert Edge(g, p[i], p[j]);
    }
  }

  lemma WalkIsPath(g: Graph, rpo: seq<nat>, q: seq<nat>, k: nat)
    requires T.Walk(NumberPreds(g, rpo), q, k)
    ensures IsPathFromTo(g, seq(|q|, i requires 0 <= i < |q| => rpo[q[i]]), rpo[0], rpo[k])
  {
    var p := seq(|q|, i requires 0 <= i < |q| => rpo[q[i]]);
    forall i, j | 0 <= i && j == i + 1 && j < |p|
      ensures Edge(g, p[i], p[j])
    {
      assert q[i] in NumberPreds(g, rpo)[q[j]];
    }
  }

  lemma DomImpliesPathDom(g: Graph, start: Option<nat>, rpo: seq<nat>, i: nat, k: nat)
    requires IsRpo(g, start, rpo) && start.Some? && i < |rpo| && k < |rpo|
    requires T.Dom(NumberPreds(g, rpo), i, k)
    ensures PathDom(g, rpo[0], rpo[i], rpo[k])
  {
    forall p | IsPathFromTo(g, p, rpo[0], rpo[k])
      ensures rpo[i] in p
    {
      PathStaysInRpo(g, start, rpo, p);
      PathIsWalk(g, start, rpo, p, k);
      var q := Indices(rpo, p);
      assert i in q;
      var m :| 0 <= m < |q| && q[m] == i;
      assert p[m] == rpo[i];
    }
  }

  lemma PathDomImpliesDom(g: Graph, rpo: seq<nat>, i: nat, k: nat)
    requires Distinct(rpo) && i < |rpo| && k < |rpo| && PathDom(g, rpo[0], rpo[i], rpo[k])
    ensures T.Dom(NumberPreds(g, rpo), i, k)
  {
    forall q | T.Walk(NumberPreds(g, rpo), q, k)
      ensures i in q
    {
      WalkIsPath(g, rpo, q, k);
      var p := seq(|q|, x requires 0 <= x < |q| => rpo[q[x]]);
      assert rpo[i] in p;
      var m :| 0 <= m < |p| && p[m] == rpo[i];
      assert q[m] == i;
    }
  }

  lemma DomIsPathDom(g: Graph, start: Option<nat>, rpo: seq<nat>, i: nat, k: nat)
    requires IsRpo(g, start, rpo) && start.Some? && i < |rpo| && k < |rpo|
    ensures T.Dom(NumberPreds(g, rpo), i, k) <==> PathDom(g, rpo[0], rpo[i], rpo[k])
  {
    if T.Dom(NumberPreds(g, rpo), i, k) {
      DomImpliesPathDom(g, start, rpo, i, k);
    }
    if PathDom(g, rpo[0], rpo[i], rpo[k]) {
      PathDomImpliesDom(g, rpo, i, k);
    }
  }

  // ----- the algorithm -----

  ghost predicate SameCommon(t: seq<int>, a: int, b: int, a0: int, b0: int) {
    forall c :: (T.Anc(t, c, a) && T.Anc(t, c, b)) <==> (T.Anc(t, c, a0) && T.Anc(t, c, b0))
  }

  lemma StepUp(t: seq<int>, a: int, b: int)
    requires T.Tree(t) && 0 <= b < a < |t| && t[a] != -1
    ensures forall c :: T.Anc(t, c, b) ==> (T.Anc(t, c, a) <==> T.Anc(t, c, t[a]))
  {
    forall c | T.Anc(t, c, b)
      ensures T.Anc(t, c, a) <==> T.Anc(t, c, t[a])
    {
      T.AncIsLower(t, c, b);
    }
  }

  /** The two-finger walk to the lowest common chain element. `t` is the contents of
      the parent array. */
  method Intersect(idom: array<int>, ghost t: seq<int>, a0: int, b0: int) returns (r: int)
    requires t == idom[..] && T.Tree(t)
    requires 0 <= a0 < |t| && t[a0] != -1 && 0 <= b0 < |t| && t[b0] != -1
    ensures 0 <= r < |t| && t[r] != -1
    ensures forall c :: T.Anc(t, c, r) <==> T.Anc(t, c, a0) && T.Anc(t, c, b0)
  {
    var a, b := a0, b0;
    while a != b
      invariant 0 <= a < |t| && t[a] != -1 && 0 <= b < |t| && t[b] != -1
      invariant SameCommon(t, a, b, a0, b0)
      decreases a + b
    {
      ghost var a1, b1 := a, b;
      while a > b
        invariant 0 <= a <= a1 && t[a] != -1 && SameCommon(t, a, b, a0, b0)
      {
        StepUp(t, a, b);
        a := idom[a];
      }
      while b > a
        invariant 0 <= b <= b1 && t[b] != -1 && SameCommon(t, a, b, a0, b0)
      {
        StepUp(t, b, a);
        b := idom[b];
      }
    }
    r := a;
  }

  /** The list holds exactly the blocks numbered in `ps`, beside unreachable ones,
      which have no number. */
  ghost predicate Lists(prs: seq<nat>, num: map<nat, int>, ps: set<nat>) {
    && (forall x :: 0 <= x < |prs| && prs[x] in num ==> num[prs[x]] in ps)
    && (forall p :: p in ps ==> Listed(prs, num, p))
  }

  ghost predicate Listed(prs: seq<nat>, num: map<nat, int>, p: nat) {
    exists x :: 0 <= x < |prs| && prs[x] in num && num[prs[x]] == p
  }

  /** The processed predecessors among the first j of the list. */
  ghost function Processed(t: seq<int>, num: map<nat, int>, prs: seq<nat>, j: nat): (s: set<int>)
    requires j <= |prs|
  {
    set x | 0 <= x < j && prs[x] in num && 0 <= num[prs[x]] < |t| && t[num[prs[x]]] != -1 :: num[prs[x]]
  }

  ghost predicate CommonTo(t: seq<int>, s: set<int>, a: int) {
    forall p :: p in s ==> T.Anc(t, a, p)
  }

  /** One block's new parent: the walk over its predecessor list, skipping
      unreachable and unprocessed predecessors. */
  method NewIdom(idom: array<int>, ghost t: seq<int>, num: map<nat, int>, prs: seq<nat>) returns (v: int)
    requires t == idom[..] && T.Tree(t)
    requires forall x :: 0 <= x < |prs| && prs[x] in num ==> 0 <= num[prs[x]] < |t|
    ensures v == -1 ==> Processed(t, num, prs, |prs|) == {}
    ensures v != -1 ==> 0 <= v < |t| && t[v] != -1
    ensures v != -1 ==> forall a :: CommonTo(t, Processed(t, num, prs, |prs|), a) <==> T.Anc(t, a, v)
  {
    v := -1;
    for j := 0 to |prs|
      invariant v == -1 ==> Processed(t, num, prs, j) == {}
      invariant v != -1 ==> 0 <= v < |t| && t[v] != -1
      invariant v != -1 ==> forall a :: CommonTo(t, Processed(t, num, prs, j), a) <==> T.Anc(t, a, v)
    {
      ghost var before, after := Processed(t, num, prs, j), Processed(t, num, prs, j + 1);
      var pi := if prs[j] in num then num[prs[j]] else -1;
      if pi < 0 || idom[pi] == -1 {
        assert after == before;
        continue;
      }
      assert after == before + {pi};
      ghost var v0 := v;
      if v == -1 {
        v := pi;
      } else {
        v := Intersect(idom, t, pi, v);
      }
      forall a
        ensures CommonTo(t, after, a) <==> T.Anc(t, a, v)
      {
        assert CommonTo(t, after, a) <==> CommonTo(t, before, a) && T.Anc(t, a, pi);
      }
    }
  }

  lemma ProcessedIsPreds(ps: T.Preds, t: seq<int>, num: map<nat, int>, prs: seq<nat>, i: nat, a: int)
    requires |t| == |ps| && i < |ps| && Lists(prs, num, ps[i])
    ensures CommonTo(t, Processed(t, num, prs, |prs|), a) <==> T.Common(ps, t, i, a)
  {
    forall p: nat
      ensures p in Processed(t, num, prs, |prs|) <==> p in ps[i] && p < |t| && t[p] != -1
    {
      if p in ps[i] && p < |t| && t[p] != -1 {
        assert Listed(prs, num, p);
      }
    }
  }

  /** The parent computed for block i is the meet the theory speaks of. */
  lemma NewIdomIsMeet(ps: T.Preds, tp: seq<nat>, t: seq<int>, i: nat, v: int)
    requires T.Inv(ps, tp, t, i) && 0 < i < |t| && t[tp[i]] != -1
    requires 0 <= v < |t| && t[v] != -1
    requires forall a :: T.Common(ps, t, i, a) <==> T.Anc(t, a, v)
    ensures T.Meet(ps, t, i, v)
  {
    assert T.Anc(t, v, v);
    assert T.Anc(t, v, tp[i]);
    T.AncIsLower(t, v, tp[i]);
    forall d: nat | d != i && T.Dom(ps, d, i)
      ensures T.Dom(ps, d, v)
    {
      forall p | p in ps[i] && p < |t| && t[p] != -1
        ensures T.Anc(t, d, p)
      {
        T.DomOfPred(ps, d, p, i);
        T.DomOnChain(ps, tp, t, d, p);
      }
      assert T.Anc(t, d, v);
      T.AncIsLower(t, d, v);
      T.DomOfPred(ps, d, tp[i], i);
      T.DomUpChain(ps, t, d, tp[i], v);
    }
  }

  /** Block i's new parent, when the blocks before i are processed. */
  method MeetAt(idom: array<int>, ghost ps: T.Preds, ghost tp: seq<nat>, ghost t: seq<int>,
                num: map<nat, int>, prs: seq<nat>, i: nat)
    returns (v: int)
    requires t == idom[..] && T.Inv(ps, tp, t, i) && 0 < i < |t| && t[tp[i]] != -1
    requires Lists(prs, num, ps[i])
    ensures T.Meet(ps, t, i, v)
  {
    v := NewIdom(idom, t, num, prs);
    forall a
      ensures CommonTo(t, Processed(t, num, prs, |prs|), a) <==> T.Common(ps, t, i, a)
    {
      ProcessedIsPreds(ps, t, num, prs, i, a);
    }
    assert Listed(prs, num, tp[i]);
    assert tp[i] in Processed(t, num, prs, |prs|);
    NewIdomIsMeet(ps, tp, t, i, v);
  }

  /** A recomputed parent that differs is higher up: the round makes progress. */
  lemma MeetIsBelow(ps: T.Preds, tp: seq<nat>, t: seq<int>, i: nat, v: int)
    requires T.Inv(ps, tp, t, i) && 0 < i < |t| && T.Meet(ps, t, i, v) && t[i] != v
    ensures T.Weight(t[i := v], |t|) < T.Weight(t, |t|)
  {
    if t[i] != -1 {
      assert T.Anc(t, v, t[i]);
      T.AncIsLower(t, v, t[i]);
    }
    T.StoreLightens(t, |t|, i, v);
  }

  /** Where a round that changed nothing has got to. */
  ghost predicate FixedBelow(ps: T.Preds, t: seq<int>, i: nat)
    requires |t| == |ps|
  {
    forall k :: 0 < k < i && k < |t| ==> T.Common(ps, t, k, t[k])
  }

  /** A block's turn in a round: storing its meet keeps the invariant and lightens
      the array, unless the meet is already stored. */
  lemma TurnKeeps(ps: T.Preds, tp: seq<nat>, t: seq<int>, i: nat, v: int)
    requires T.Inv(ps, tp, t, i) && 0 < i < |t| && T.Meet(ps, t, i, v) && t[i - 1] != -1
    ensures T.Inv(ps, tp, t[i := v], i + 1)
    ensures t[i] != v ==> T.Weight(t[i := v], |t|) < T.Weight(t, |t|)
    ensures t[i] == v ==> t[i := v] == t && T.Common(ps, t, i, t[i])
  {
    if t[i] == v {
      assert t[i := v] == t;
      T.NextOnTree(ps, tp, t, i);
    } else {
      T.StoreKeeps(ps, tp, t, i, v);
      MeetIsBelow(ps, tp, t, i, v);
    }
  }

  lemma FixedAll(ps: T.Preds, tp: seq<nat>, t: seq<int>)
    requires T.Rooted(ps, tp) && |t| == |ps| && FixedBelow(ps, t, |t|)
    requires forall k :: 0 <= k < |t| ==> t[k] != -1
    ensures T.Fixed(ps, t)
  {
  }

  /** One round over the order. */
  method Round(rpo: seq<nat>, num: map<nat, int>, preds: seq<seq<nat>>, idom: array<int>,
               ghost ps: T.Preds, ghost tp: seq<nat>, ghost t0: seq<int>)
    returns (changed: bool, ghost t: seq<int>)
    requires t0 == idom[..] && |rpo| == |ps| && T.Inv(ps, tp, t0, 1)
    requires forall i :: 0 < i < |rpo| ==> rpo[i] < |preds| && Lists(preds[rpo[i]], num, ps[i])
    modifies idom
    ensures t == idom[..] && T.Inv(ps, tp, t, 1)
    ensures forall k :: 0 <= k < |t| ==> t[k] != -1
    ensures !changed ==> t == t0 && T.Fixed(ps, t)
    ensures changed ==> T.Weight(t, |ps|) < T.Weight(t0, |ps|)
  {
    changed, t := false, t0;
    for i := 1 to |rpo|
      invariant t == idom[..] && T.Inv(ps, tp, t, i)
      invariant forall k :: 0 <= k < i ==> t[k] != -1
      invariant !changed ==> t == t0 && FixedBelow(ps, t, i)
      invariant changed ==> T.Weight(t, |ps|) < T.Weight(t0, |ps|)
    {
      var v := MeetAt(idom, ps, tp, t, num, preds[rpo[i]], i);
      TurnKeeps(ps, tp, t, i, v);
      if v != -1 && idom[i] != v {
        idom[i] := v;
        changed := true;
      }
      t := t[i := v];
    }
    T.NextRound(ps, tp, t);
    if !changed {
      FixedAll(ps, tp, t);
    }
  }

  lemma DominatorIsListed(g: Graph, start: Option<nat>, rpo: seq<nat>, a: nat, i: nat)
    requires IsRpo(g, start, rpo) && start.Some? && i < |rpo| && PathDom(g, rpo[0], a, rpo[i])
    ensures a in rpo
  {
    assert rpo[i] in rpo;
    var p :| IsPathFromTo(g, p, start.value, rpo[i]);
    PathStaysInRpo(g, start, rpo, p);
  }

  lemma ParentIsImmediate(g: Graph, start: Option<nat>, rpo: seq<nat>, ps: T.Preds, tp: seq<nat>, t: seq<int>, i: nat)
    requires IsRpo(g, start, rpo) && start.Some? && ps == NumberPreds(g, rpo)
    requires T.Inv(ps, tp, t, 1) && T.Fixed(ps, t) && (forall k :: 0 <= k < |t| ==> t[k] != -1)
    requires 0 < i < |t|
    ensures ImmediateDom(g, rpo[0], rpo[t[i]], rpo[i])
  {
    var p := t[i];
    assert T.Anc(t, p, i);
    T.ChainIsDominance(ps, tp, t, p, i);
    DomIsPathDom(g, start, rpo, p, i);
    forall a: nat | a != rpo[i] && PathDom(g, rpo[0], a, rpo[i])
      ensures PathDom(g, rpo[0], a, rpo[p])
    {
      DominatorIsListed(g, start, rpo, a, i);
      var x :| 0 <= x < |rpo| && rpo[x] == a;
      DomIsPathDom(g, start, rpo, x, i);
      DomIsPathDom(g, start, rpo, x, p);
    }
  }

  lemma ListsPreds(g: Graph, rpo: seq<nat>, num: map<nat, int>, preds: seq<seq<nat>>, i: nat)
    requires IsNumbering(rpo, num) && IsPreds(g, preds) && i < |rpo| && rpo[i] < |g|
    ensures Lists(preds[rpo[i]], num, NumberPreds(g, rpo)[i])
  {
    var prs, ps := preds[rpo[i]], NumberPreds(g, rpo)[i];
    forall x | 0 <= x < |prs| && prs[x] in num
      ensures num[prs[x]] in ps
    {
      assert prs[x] in prs && prs[x] in rpo;
      var k :| 0 <= k < |rpo| && rpo[k] == prs[x];
    }
    forall p | p in ps
      ensures Listed(prs, num, p)
    {
      assert rpo[p] in prs && rpo[p] in rpo;
      var x :| 0 <= x < |prs| && prs[x] == rpo[p];
    }
  }

  lemma StartInv(ps: T.Preds, tp: seq<nat>, t: seq<int>)
    requires T.Rooted(ps, tp) && |t| == |ps| && t[0] == 0 && forall k :: 0 < k < |t| ==> t[k] == -1
    ensures T.Inv(ps, tp, t, 1)
  {
  }

  /** Only the entry, which is its own parent during the fixpoint, starts processed. */
  method Unprocessed(n: nat) returns (a: array<int>)
    requires n > 0
    ensures fresh(a) && a.Length == n && a[0] == 0 && forall k :: 0 < k < n ==> a[k] == -1
  {
    a := new int[n];
    for i := 0 to n
      invariant forall k :: 0 <= k < i ==> a[k] == -1
    {
      a[i] := -1;
    }
    a[0] := 0;
  }

  /** The fixpoint: rounds until nothing changes. */
  method Rounds(rpo: seq<nat>, num: map<nat, int>, preds: seq<seq<nat>>, ghost ps: T.Preds, ghost tp: seq<nat>)
    returns (idom: seq<int>)
    requires |rpo| == |ps| && T.Rooted(ps, tp)
    requires forall i :: 0 < i < |rpo| ==> rpo[i] < |preds| && Lists(preds[rpo[i]], num, ps[i])
    ensures |idom| == |ps| && T.Inv(ps, tp, idom, 1) && T.Fixed(ps, idom)
    ensures forall k :: 0 <= k < |idom| ==> idom[k] != -1
  {
    var a := Unprocessed(|rpo|);
    ghost var t := a[..];
    StartInv(ps, tp, t);
    var changed := true;
    while changed
      invariant t == a[..] && T.Inv(ps, tp, t, 1)
      invariant !changed ==> T.Fixed(ps, t) && forall k :: 0 <= k < |t| ==> t[k] != -1
      decreases T.Weight(t, |ps|), changed
    {
      changed, t := Round(rpo, num, preds, a, ps, tp, t);
    }
    idom := a[..];
  }

  method Fixpoint(g: Graph, start: Option<nat>, rpo: seq<nat>, num: map<nat, int>, preds: seq<seq<nat>>)
    returns (idom: seq<int>)
    requires IsRpo(g, start, rpo) && start.Some? && IsNumbering(rpo, num) && IsPreds(g, preds)
    requires forall b :: b in rpo ==> b < |g|
    ensures |idom| == |rpo|
    ensures forall i :: 0 < i < |rpo| ==> 0 <= idom[i] < i && ImmediateDom(g, rpo[0], rpo[idom[i]], rpo[i])
  {
    ghost var ps, tp := NumberPreds(g, rpo), TreeParents(g, rpo);
    RpoIsRooted(g, start, rpo);
    forall i | 0 < i < |rpo|
      ensures rpo[i] < |preds| && Lists(preds[rpo[i]], num, ps[i])
    {
      assert rpo[i] in rpo;
      ListsPreds(g, rpo, num, preds, i);
    }
    idom := Rounds(rpo, num, preds, ps, tp);
    forall i | 0 < i < |rpo|
      ensures 0 <= idom[i] < i && ImmediateDom(g, rpo[0], rpo[idom[i]], rpo[i])
    {
      ParentIsImmediate(g, start, rpo, ps, tp, idom, i);
    }
  }

  method Collect(rpo: seq<nat>, idom: seq<int>) returns (d: DomTree)
    requires rpo != [] && Distinct(rpo) && |idom| == |rpo|
    requires forall i :: 0 < i < |rpo| ==> 0 <= idom[i] < i
    ensures forall b :: b in d.idom <==> b in rpo
    ensures d.idom[rpo[0]] == None
    ensures forall k :: 0 < k < |rpo| ==> rpo[k] in d.idom && d.idom[rpo[k]] == Some(rpo[idom[k]])
  {
    d := DomTree(map[rpo[0] := None]);
    for i := 1 to |rpo|
      invariant forall b :: b in d.idom ==> b in rpo
      invariant rpo[0] in d.idom && d.idom[rpo[0]] == None
      invariant forall k :: 0 < k < i ==> rpo[k] in d.idom && d.idom[rpo[k]] == Some(rpo[idom[k]])
    {
      d := DomTree(d.idom[rpo[i] := Some(rpo[idom[i]])]);
    }
  }

  /** The dominator tree of a built graph. */
  method Dominators(c: CFG) returns (d: DomTree)
    requires c.Valid() && WellFormed(c.g) && (c.start.Some? ==> c.start.value < |c.g|)
    ensures IsDomTree(c.g, c.rpo, d)
  {
    d := DomTree(map[]);
    var rpo: seq<nat> := c.rpo;
    if |rpo| == 0 {
      return;
    }
    assert rpo[0] in rpo;
    forall b | b in rpo
      ensures b < |c.g|
    {
      ReachInRange(c.g, c.start.value, b);
    }
    var idom := Fixpoint(c.g, c.start, rpo, c.num, c.preds);
    d := Collect(rpo, idom);
    forall i | 0 < i < |rpo|
      ensures IdomAt(c.g, rpo, d, i)
    {
      assert rpo[idom[i]] == d.idom[rpo[i]].value;
    }
  }

  ghost function IndexIn(s: seq<nat>, b: nat): (i: nat)
    ensures b in s ==> i < |s| && s[i] == b
  {
    if b in s then var i: nat :| i < |s| && s[i] == b; i else 0
  }

  /** One step of the walk: above y, dominating y and dominating its parent agree. */
  lemma ClimbKeeps(g: Graph, rpo: seq<nat>, d: DomTree, a: nat, i: nat)
    requires IsDomTree(g, rpo, d) && i < |rpo| && a != rpo[i]
    ensures i == 0 ==> d.Idom(rpo[i]) == None && !PathDom(g, rpo[0], a, rpo[i])
    ensures i > 0 ==> d.Idom(rpo[i]).Some? && exists j :: 0 <= j < i && rpo[j] == d.Idom(rpo[i]).value
    ensures i > 0 ==> (PathDom(g, rpo[0], a, rpo[i]) <==> PathDom(g, rpo[0], a, d.Idom(rpo[i]).value))
  {
    assert rpo[i] in rpo;
    if i == 0 {
      if PathDom(g, rpo[0], a, rpo[0]) {
        OnlyEntryDominatesEntry(g, rpo[0], a);
      }
    } else {
      assert IdomAt(g, rpo, d, i);
      var p := d.Idom(rpo[i]).value;
      if PathDom(g, rpo[0], a, p) {
        PathDomTrans(g, rpo[0], a, p, rpo[i]);
      }
    }
  }

  /** Walks the parent chain. On a reachable block the answer is path dominance; an
      unreachable block is covered by nothing and dominates only itself. */
  method Dominates(ghost g: Graph, ghost rpo: seq<nat>, d: DomTree, a: nat, b: nat) returns (r: bool)
    requires IsDomTree(g, rpo, d)
    ensures b in rpo ==> (r <==> PathDom(g, rpo[0], a, b))
    ensures b !in rpo ==> (r <==> a == b)
  {
    var x := Some(b);
    ghost var i: nat := IndexIn(rpo, b);
    while x.Some?
      invariant x.Some? && b !in rpo ==> x == Some(b)
      invariant x.Some? && b in rpo ==> i < |rpo| && rpo[i] == x.value
      invariant x.Some? && b in rpo ==> (PathDom(g, rpo[0], a, b) <==> PathDom(g, rpo[0], a, x.value))
      invariant x.None? ==> if b in rpo then !PathDom(g, rpo[0], a, b) else a != b
      decreases x.Some?, i
    {
      if x.value == a {
        PathDomRefl(g, if b in rpo then rpo[0] else 0, a);
        return true;
      }
      x := d.Idom(x.value);
      if b in rpo {
        ClimbKeeps(g, rpo, d, a, i);
        if x.Some? {
          var j :| 0 <= j < i && rpo[j] == x.value;
          i := j;
        }
      }
    }
    r := false;
  }
}
