/** Dominance over reverse-postorder numbers, and the parent chains the iterative
    algorithm of analysis/dom.go keeps. Node 0 is the entry; `ps[k]` holds the
    numbers of the predecessors of node k; `tp[k]` is a predecessor with a smaller
    number, which the reverse postorder provides for every node but the entry. */
module DomTheory {
  type Preds = seq<set<nat>>

  ghost predicate Rooted(ps: Preds, tp: seq<nat>) {
    && |tp| == |ps| > 0
    && (forall k :: 0 < k < |ps| ==> tp[k] < k && tp[k] in ps[k])
    && (forall k, p :: 0 <= k < |ps| && p in ps[k] ==> p < |ps|)
  }

  /** A walk from the entry to b. */
  ghost predicate Walk(ps: Preds, q: seq<nat>, b: nat) {
    && q != [] && q[0] == 0 && q[|q| - 1] == b
    && (forall i :: 0 <= i < |q| ==> q[i] < |ps|)
    && (forall i, j :: 0 <= i && j == i + 1 && j < |q| ==> q[i] in ps[q[j]])
  }

  ghost predicate Dom(ps: Preds, a: nat, b: nat) {
    forall q :: Walk(ps, q, b) ==> a in q
  }

  /** A strict dominator of i dominates each predecessor of i. */
  lemma DomOfPred(ps: Preds, a: nat, p: nat, i: nat)
    requires i < |ps| && p in ps[i] && Dom(ps, a, i) && a != i
    ensures Dom(ps, a, p)
  {
    forall q | Walk(ps, q, p)
      ensures a in q
    {
      assert Walk(ps, q + [i], i);
    }
  }

  ghost function TreeWalk(ps: Preds, tp: seq<nat>, b: nat): (q: seq<nat>)
    requires Rooted(ps, tp) && b < |ps|
    ensures Walk(ps, q, b)
    ensures forall x :: x in q ==> x <= b
  {
    if b == 0 then [0] else TreeWalk(ps, tp, tp[b]) + [b]
  }

  /** Dominators are numbered no higher than what they dominate. */
  lemma DomIsLower(ps: Preds, tp: seq<nat>, a: nat, b: nat)
    requires Rooted(ps, tp) && b < |ps| && Dom(ps, a, b)
    ensures a <= b
  {
    assert a in TreeWalk(ps, tp, b);
  }

  // ----- parent chains -----

  /** A partial tree: -1 marks a node not processed yet, and a processed node's
      parent is a processed node with a smaller number. */
  ghost predicate Tree(t: seq<int>) {
    && |t| > 0 && t[0] == 0
    && forall x :: 0 < x < |t| && t[x] != -1 ==> 0 <= t[x] < x && t[t[x]] != -1
  }

  /** a is x or lies on x's parent chain. */
  ghost predicate Anc(t: seq<int>, a: int, x: int)
    decreases x
  {
    a == x || (0 < x < |t| && 0 <= t[x] < x && Anc(t, a, t[x]))
  }

  lemma {:induction false} AncIsLower(t: seq<int>, a: int, x: int)
    requires Anc(t, a, x)
    ensures a <= x
    decreases x
  {
    if a != x {
      AncIsLower(t, a, t[x]);
    }
  }

  lemma {:induction false} AncTrans(t: seq<int>, a: int, b: int, c: int)
    requires Anc(t, a, b) && Anc(t, b, c)
    ensures Anc(t, a, c)
    decreases c
  {
    if b != c {
      AncTrans(t, a, b, t[c]);
    }
  }

  /** Chains are linear. */
  lemma {:induction false} AncLinear(t: seq<int>, a: int, b: int, x: int)
    requires Anc(t, a, x) && Anc(t, b, x) && a <= b
    ensures Anc(t, a, b)
    decreases x
  {
    if b != x {
      AncIsLower(t, b, t[x]);
      AncLinear(t, a, b, t[x]);
    }
  }

  /** A change at i leaves the part of a chain above i alone. */
  lemma {:induction false} AncKeep(t: seq<int>, i: int, v: int, a: int, x: int)
    requires 0 <= i < |t| && Anc(t, a, x) && a >= i
    ensures Anc(t[i := v], a, x)
    decreases x
  {
    if a != x {
      AncIsLower(t, a, t[x]);
      AncKeep(t, i, v, a, t[x]);
    }
  }

  /** A change at i does not touch chains that start below i, in either direction. */
  lemma {:induction false} AncBelow(t: seq<int>, i: int, v: int, a: int, x: int)
    requires 0 <= i < |t| && x < i
    ensures Anc(t[i := v], a, x) <==> Anc(t, a, x)
    decreases x
  {
    if a != x && 0 < x && 0 <= t[x] < x {
      AncBelow(t, i, v, a, t[x]);
    }
  }

  /** Chains that do not pass i are kept whole. */
  lemma {:induction false} AncAvoid(t: seq<int>, i: int, v: int, a: int, x: int)
    requires 0 <= i < |t| && !Anc(t, i, x)
    ensures Anc(t[i := v], a, x) <==> Anc(t, a, x)
    decreases x
  {
    if a != x && 0 < x < |t| && 0 <= t[x] < x {
      AncAvoid(t, i, v, a, t[x]);
    }
  }

  /** Moving i's parent up its own chain only shrinks chains. */
  lemma {:induction false} AncShrinks(t: seq<int>, i: int, v: int, a: int, x: int)
    requires 0 < i < |t| && 0 <= t[i] < i && Anc(t, v, t[i]) && 0 <= v
    requires Anc(t[i := v], a, x)
    ensures Anc(t, a, x)
    decreases x
  {
    if a != x {
      var y := t[i := v][x];
      AncShrinks(t, i, v, a, y);
      if x == i {
        AncTrans(t, a, v, t[i]);
      }
    }
  }

  // ----- the invariants of the fixpoint -----

  /** Every strict dominator of a processed node dominates its stored parent. */
  ghost predicate Sound(ps: Preds, t: seq<int>)
    requires |t| == |ps|
  {
    forall x, d: nat :: 0 < x < |t| && 0 <= t[x] && d != x && Dom(ps, d, x) ==> Dom(ps, d, t[x])
  }

  /** Processed nodes are a prefix of the order. */
  ghost predicate Prefix(t: seq<int>) {
    forall j, k :: 0 <= j < k < |t| && t[k] != -1 ==> t[j] != -1
  }

  /** a lies on the chain of every processed predecessor of k. */
  ghost predicate Common(ps: Preds, t: seq<int>, k: nat, a: int)
    requires |t| == |ps| && k < |ps|
  {
    forall p :: p in ps[k] && p < |t| && t[p] != -1 ==> Anc(t, a, p)
  }

  /** What the predecessors' chains share lies on the stored parent's chain, so a
      recomputation can only move the parent up. */
  ghost predicate Upward(ps: Preds, t: seq<int>)
    requires |t| == |ps|
  {
    forall k, a :: 0 < k < |t| && t[k] != -1 && Common(ps, t, k, a) ==> Anc(t, a, t[k])
  }

  /** In a round that has reached cur, the stored parent is on the tree
      predecessor's chain, unless it was stored in the round before and lies below
      cur, where this round may have rewritten that chain. */
  ghost predicate OnTree(tp: seq<nat>, t: seq<int>, cur: nat)
    requires |t| == |tp|
  {
    forall k :: 0 < k < |t| && t[k] != -1 && (k < cur || t[k] >= cur) ==> Anc(t, t[k], tp[k])
  }

  ghost predicate Inv(ps: Preds, tp: seq<nat>, t: seq<int>, cur: nat) {
    && Rooted(ps, tp) && |t| == |ps| && Tree(t)
    && Sound(ps, t) && Prefix(t) && Upward(ps, t) && OnTree(tp, t, cur)
  }

  /** v is what the walk over i's predecessors computes: their greatest common
      chain element. */
  ghost predicate Meet(ps: Preds, t: seq<int>, i: nat, v: int)
    requires |t| == |ps| && i < |ps|
  {
    && 0 <= v < i && t[v] != -1
    && Common(ps, t, i, v)
    && (forall a :: Common(ps, t, i, a) ==> Anc(t, a, v))
    && (forall d: nat :: d != i && Dom(ps, d, i) ==> Dom(ps, d, v))
  }

  lemma NextOnTree(ps: Preds, tp: seq<nat>, t: seq<int>, i: nat)
    requires Inv(ps, tp, t, i) && 0 < i < |t| && Meet(ps, t, i, t[i])
    ensures Inv(ps, tp, t, i + 1)
  {
    hide Sound, Upward, Tree, Dom;
    forall k | 0 < k < |t| && t[k] != -1 && (k < i + 1 || t[k] >= i + 1)
      ensures Anc(t, t[k], tp[k])
    {
      assert t[tp[k]] != -1;
    }
  }

  lemma StoreOnTreeAt(ps: Preds, tp: seq<nat>, t: seq<int>, i: nat, v: int, k: nat)
    requires Rooted(ps, tp) && |t| == |ps| && 0 < i < |t| && OnTree(tp, t, i) && Common(ps, t, i, v)
    requires 0 < k < |t| && t[tp[i]] != -1
    requires k != i ==> t[k] != -1 && (k < i || t[k] > i)
    ensures Anc(t[i := v], t[i := v][k], tp[k])
  {
    if k == i {
      AncBelow(t, i, v, v, tp[i]);
    } else if k < i {
      AncBelow(t, i, v, t[k], tp[k]);
    } else {
      AncKeep(t, i, v, t[k], tp[k]);
    }
  }

  lemma StoreTree(ps: Preds, t: seq<int>, i: nat, v: int)
    requires |t| == |ps| && Tree(t) && Sound(ps, t) && Prefix(t) && 0 < i < |t| && t[i - 1] != -1
    requires 0 <= v < i && t[v] != -1 && (forall d: nat :: d != i && Dom(ps, d, i) ==> Dom(ps, d, v))
    ensures Tree(t[i := v]) && Sound(ps, t[i := v]) && Prefix(t[i := v])
  {
  }

  /** The heart of termination: storing a meet keeps every other node's stored
      parent below what its predecessors share. */
  lemma StoreUpwardAt(ps: Preds, tp: seq<nat>, t: seq<int>, i: nat, v: int, k: nat, a: int)
    requires Inv(ps, tp, t, i) && 0 < i < |t| && Meet(ps, t, i, v) && t[i] != -1
    requires 0 < k < |t| && k != i && t[k] != -1 && Common(ps, t[i := v], k, a)
    ensures Anc(t[i := v], a, t[k])
  {
    var u := t[i := v];
    assert Anc(t, v, t[i]);
    forall p | p in ps[k] && p < |t| && t[p] != -1
      ensures Anc(t, a, p)
    {
      assert u[p] != -1;
      AncShrinks(t, i, v, a, p);
    }
    assert Anc(t, a, t[k]);
    if !Anc(t, i, t[k]) {
      AncAvoid(t, i, v, a, t[k]);
    } else if a >= i {
      AncKeep(t, i, v, a, t[k]);
    } else {
      AncIsLower(t, i, t[k]);
      assert Anc(t, t[k], tp[k]);
      AncTrans(t, i, t[k], tp[k]);
      AncKeep(t, i, v, i, tp[k]);
      AncKeep(t, i, v, i, t[k]);
      assert u[tp[k]] != -1;
      assert Anc(u, a, tp[k]);
      AncLinear(u, a, i, tp[k]);
      AncTrans(u, a, i, t[k]);
    }
  }

  /** The same for the first store at i, when no chain passes i yet. */
  lemma FirstUpwardAt(ps: Preds, tp: seq<nat>, t: seq<int>, i: nat, v: int, k: nat, a: int)
    requires Inv(ps, tp, t, i) && 0 < i < |t| && t[i] == -1
    requires 0 < k < |t| && k != i && t[k] != -1 && Common(ps, t[i := v], k, a)
    ensures Anc(t[i := v], a, t[k])
  {
    var u := t[i := v];
    forall p | p in ps[k] && p < |t| && t[p] != -1
      ensures Anc(t, a, p)
    {
      assert u[p] != -1 && p < i;
      AncBelow(t, i, v, a, p);
    }
    assert t[t[k]] != -1 && t[k] < i;
    AncBelow(t, i, v, a, t[k]);
  }

  lemma StoreUpwardHere(ps: Preds, tp: seq<nat>, t: seq<int>, i: nat, v: int, a: int)
    requires Inv(ps, tp, t, i) && 0 < i < |t| && Meet(ps, t, i, v)
    requires Common(ps, t[i := v], i, a)
    ensures Anc(t[i := v], a, v)
  {
    var u := t[i := v];
    forall p | p in ps[i] && p < |t| && t[p] != -1
      ensures Anc(t, a, p)
    {
      assert u[p] != -1;
      if t[i] == -1 {
        AncBelow(t, i, v, a, p);
      } else {
        AncShrinks(t, i, v, a, p);
      }
    }
    AncBelow(t, i, v, a, v);
  }

  lemma StoreUpward(ps: Preds, tp: seq<nat>, t: seq<int>, i: nat, v: int, k: nat, a: int)
    requires Inv(ps, tp, t, i) && 0 < i < |t| && Meet(ps, t, i, v)
    requires 0 < k < |t| && (k != i ==> t[k] != -1) && Common(ps, t[i := v], k, a)
    ensures Anc(t[i := v], a, t[i := v][k])
  {
    if k == i {
      StoreUpwardHere(ps, tp, t, i, v, a);
    } else if t[i] == -1 {
      FirstUpwardAt(ps, tp, t, i, v, k, a);
    } else {
      StoreUpwardAt(ps, tp, t, i, v, k, a);
    }
  }

  lemma StoreOnTree(ps: Preds, tp: seq<nat>, t: seq<int>, i: nat, v: int)
    requires Rooted(ps, tp) && |t| == |ps| && 0 < i < |t| && OnTree(tp, t, i) && Common(ps, t, i, v)
    requires t[tp[i]] != -1
    ensures OnTree(tp, t[i := v], i + 1)
  {
    var u := t[i := v];
    forall k | 0 < k < |u| && u[k] != -1 && (k < i + 1 || u[k] >= i + 1)
      ensures Anc(u, u[k], tp[k])
    {
      StoreOnTreeAt(ps, tp, t, i, v, k);
    }
  }

  lemma StoreKeeps(ps: Preds, tp: seq<nat>, t: seq<int>, i: nat, v: int)
    requires Inv(ps, tp, t, i) && 0 < i < |t| && Meet(ps, t, i, v) && t[i - 1] != -1
    ensures Inv(ps, tp, t[i := v], i + 1)
  {
    var u := t[i := v];
    forall k, a | 0 < k < |u| && u[k] != -1 && Common(ps, u, k, a)
      ensures Anc(u, a, u[k])
    {
      StoreUpward(ps, tp, t, i, v, k, a);
    }
    assert tp[i] <= i - 1 && t[tp[i]] != -1;
    StoreTree(ps, t, i, v);
    StoreOnTree(ps, tp, t, i, v);
  }

  lemma NextRound(ps: Preds, tp: seq<nat>, t: seq<int>)
    requires Inv(ps, tp, t, |t|)
    ensures Inv(ps, tp, t, 1)
  {
  }

  // ----- the fixpoint is dominance -----

  ghost predicate Fixed(ps: Preds, t: seq<int>)
    requires |t| == |ps|
  {
    forall k, p :: 0 < k < |t| && p in ps[k] ==> Anc(t, t[k], p)
  }

  lemma {:induction false} AncIsOnWalk(ps: Preds, t: seq<int>, a: nat, x: nat, q: seq<nat>)
    requires |t| == |ps| && Tree(t) && Fixed(ps, t) && Walk(ps, q, x) && Anc(t, a, x)
    ensures a in q
    decreases |q|
  {
    if a == x {
      assert q[|q| - 1] in q;
    } else {
      var k := |q| - 2;
      var p := q[k];
      assert p in ps[q[k + 1]];
      AncTrans(t, a, t[x], p);
      var r := q[..|q| - 1];
      assert r[|r| - 1] == p;
      AncIsOnWalk(ps, t, a, p, r);
      assert r <= q;
    }
  }

  /** At the fixpoint the parent chains are exactly path dominance. */
  lemma ChainIsDominance(ps: Preds, tp: seq<nat>, t: seq<int>, a: nat, x: nat)
    requires Rooted(ps, tp) && |t| == |ps| && Tree(t) && Sound(ps, t) && Fixed(ps, t) && x < |t|
    requires forall k :: 0 <= k < |t| ==> t[k] != -1
    ensures Anc(t, a, x) <==> Dom(ps, a, x)
  {
    if Anc(t, a, x) {
      forall q | Walk(ps, q, x)
        ensures a in q
      {
        AncIsOnWalk(ps, t, a, x, q);
      }
    }
    if Dom(ps, a, x) {
      DomOnChain(ps, tp, t, a, x);
    }
  }

  /** A dominator of x no higher than r stays a dominator on the way up to r. */
  lemma {:induction false} DomUpChain(ps: Preds, t: seq<int>, d: nat, x: int, r: int)
    requires |t| == |ps| && Tree(t) && Sound(ps, t) && 0 <= x < |t| && 0 <= r
    requires Anc(t, r, x) && Dom(ps, d, x) && d <= r
    ensures Dom(ps, d, r)
    decreases x
  {
    if r != x {
      AncIsLower(t, r, t[x]);
      DomUpChain(ps, t, d, t[x], r);
    }
  }

  lemma {:induction false} DomOnChain(ps: Preds, tp: seq<nat>, t: seq<int>, d: nat, x: int)
    requires Rooted(ps, tp) && |t| == |ps| && Tree(t) && Sound(ps, t)
    requires 0 <= x < |t| && t[x] != -1 && Dom(ps, d, x)
    ensures Anc(t, d, x)
    decreases x
  {
    DomIsLower(ps, tp, d, x);
    if d != x {
      DomOnChain(ps, tp, t, d, t[x]);
    }
  }

  // ----- termination of the rounds -----

  ghost function Weight(t: seq<int>, n: nat): (w: nat)
  {
    if t == [] then 0 else
      Weight(t[..|t| - 1], n) + if t[|t| - 1] < 0 then n else t[|t| - 1]
  }

  lemma {:induction false} StoreLightens(t: seq<int>, n: nat, i: nat, v: nat)
    requires i < |t| && v < n && (t[i] < 0 || v < t[i])
    ensures Weight(t[i := v], n) < Weight(t, n)
  {
    var u := t[i := v];
    if i == |t| - 1 {
      assert u[..|u| - 1] == t[..|t| - 1];
    } else {
      assert u[..|u| - 1] == t[..|t| - 1][i := v];
      StoreLightens(t[..|t| - 1], n, i, v);
    }
  }
}
