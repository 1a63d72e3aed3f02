/** Families of loop bodies that nest: what counting parents adds up to. */
module Nesting {
  import opened Graphs

  /** Bodies with their headers; `live` is the reachable blocks. A body holding
      another's header holds all of that body and more, and two bodies that share a
      reachable block are related that way. */
  ghost predicate Nest(heads: seq<nat>, bodies: seq<set<nat>>, live: set<nat>) {
    && |heads| == |bodies|
    && (forall i :: 0 <= i < |heads| ==> heads[i] in bodies[i] && heads[i] in live)
    && (forall i, j :: 0 <= i < |heads| && 0 <= j < |heads| && i != j && heads[i] in bodies[j] ==> bodies[i] < bodies[j])
    && (forall i, j, b :: 0 <= i < j < |heads| && b in bodies[i] && b in bodies[j] && b in live ==>
          heads[i] in bodies[j] || heads[j] in bodies[i])
  }

  /** The loops whose bodies hold b. */
  ghost function Holding(bodies: seq<set<nat>>, b: nat): (s: set<nat>)
    ensures forall i: nat :: i in s <==> i < |bodies| && b in bodies[i]
  {
    set i | i in Upto(|bodies|) && b in bodies[i]
  }

  lemma Shared(heads: seq<nat>, bodies: seq<set<nat>>, live: set<nat>, i: nat, j: nat, b: nat)
    requires Nest(heads, bodies, live) && i < |heads| && j < |heads| && i != j
    requires b in live && b in bodies[i] && b in bodies[j]
    ensures heads[i] in bodies[j] || heads[j] in bodies[i]
  {
  }

  /** p is the smallest other loop holding i's header. */
  ghost predicate IsParent(heads: seq<nat>, bodies: seq<set<nat>>, i: nat, p: Option<nat>)
    requires |heads| == |bodies| && i < |heads|
  {
    match p
    case None => forall j :: j in Holding(bodies, heads[i]) ==> j == i
    case Some(p) => p in Holding(bodies, heads[i]) && p != i &&
                    forall j :: j in Holding(bodies, heads[i]) && j != i ==> |bodies[p]| <= |bodies[j]|
  }

  lemma SmallerBody(a: set<nat>, b: set<nat>)
    requires a < b
    ensures |a| < |b|
  {
    assert b == a + (b - a);
    assert |b - a| > 0;
  }

  /** One step up the parent chain drops exactly the loop itself. */
  lemma ParentDropsOne(heads: seq<nat>, bodies: seq<set<nat>>, live: set<nat>, i: nat, p: nat)
    requires Nest(heads, bodies, live) && i < |heads| && IsParent(heads, bodies, i, Some(p))
    ensures p < |heads| && bodies[i] < bodies[p]
    ensures Holding(bodies, heads[i]) == {i} + Holding(bodies, heads[p]) && i !in Holding(bodies, heads[p])
  {
    var hi, hp := Holding(bodies, heads[i]), Holding(bodies, heads[p]);
    forall a | a in hi && a != i
      ensures a in hp
    {
      if a != p {
        Shared(heads, bodies, live, a, p, heads[i]);
        if heads[a] in bodies[p] {
          SmallerBody(bodies[a], bodies[p]);
        }
      }
    }
    forall a | a in hp
      ensures a in hi && a != i
    {
      if a != p {
        assert bodies[p] < bodies[a];
      }
    }
  }

  /** The loops around a held header are among the loops around the block. */
  lemma HoldingGrows(heads: seq<nat>, bodies: seq<set<nat>>, live: set<nat>, b: nat, a: nat)
    requires Nest(heads, bodies, live) && a in Holding(bodies, b)
    ensures Holding(bodies, heads[a]) <= Holding(bodies, b)
  {
    forall c | c in Holding(bodies, heads[a])
      ensures c in Holding(bodies, b)
    {
      if c != a {
        assert bodies[a] < bodies[c];
      }
    }
  }

  lemma {:induction false} SmallestOf(bodies: seq<set<nat>>, s: set<nat>) returns (m: nat)
    requires s != {} && forall i :: i in s ==> i < |bodies|
    ensures m in s && forall i :: i in s ==> |bodies[m]| <= |bodies[i]|
  {
    var x :| x in s;
    if s == {x} {
      m := x;
    } else {
      assert s == (s - {x}) + {x};
      m := SmallestOf(bodies, s - {x});
      if |bodies[x]| < |bodies[m]| {
        m := x;
      }
    }
  }

  /** Some loop around a reachable block has exactly that block's loops around its header. */
  lemma InnermostCounts(heads: seq<nat>, bodies: seq<set<nat>>, live: set<nat>, b: nat) returns (m: nat)
    requires Nest(heads, bodies, live) && b in live && Holding(bodies, b) != {}
    ensures m in Holding(bodies, b) && Holding(bodies, heads[m]) == Holding(bodies, b)
  {
    m := SmallestOf(bodies, Holding(bodies, b));
    HoldingGrows(heads, bodies, live, b, m);
    forall c | c in Holding(bodies, b)
      ensures c in Holding(bodies, heads[m])
    {
      if c != m {
        Shared(heads, bodies, live, c, m, b);
        if heads[c] in bodies[m] {
          SmallerBody(bodies[c], bodies[m]);
        }
      }
    }
  }

  /** If every loop's depth counts the loops around its header, the deepest loop
      around a reachable block has the number of loops around that block. */
  lemma DeepestCounts(heads: seq<nat>, bodies: seq<set<nat>>, live: set<nat>, depth: seq<nat>, b: nat, l: nat)
    requires Nest(heads, bodies, live) && b in live && |depth| == |heads|
    requires forall i :: 0 <= i < |heads| ==> depth[i] == |Holding(bodies, heads[i])|
    requires l in Holding(bodies, b) && forall i :: i in Holding(bodies, b) ==> depth[i] <= depth[l]
    ensures depth[l] == |Holding(bodies, b)|
  {
    var m := InnermostCounts(heads, bodies, live, b);
    HoldingGrows(heads, bodies, live, b, l);
    SubsetSize(Holding(bodies, heads[l]), Holding(bodies, b));
  }
}
