/** The maximum matching behind block layout (arm64/layout.go): each block may be
    followed by one of its fall-through candidates and follow one block, and the
    entry follows none. */
module Matching {
  import opened Graphs

  type Mates = seq<Option<nat>>

  ghost predicate CandsOk(cand: seq<seq<nat>>) {
    forall u, j :: 0 <= u < |cand| && 0 <= j < |cand[u]| ==> cand[u][j] < |cand|
  }

  /** v may be laid out right after u. */
  ghost predicate Allowed(cand: seq<seq<nat>>, entry: nat, u: nat, v: nat) {
    u < |cand| && v in cand[u] && v != entry
  }

  ghost predicate MateOk(cand: seq<seq<nat>>, entry: nat, m: Mates, v: nat) {
    v < |m| && (m[v].Some? ==> Allowed(cand, entry, m[v].value, v))
  }

  /** m gives each successor its predecessor: allowed, and no predecessor twice. */
  ghost predicate ValidMates(cand: seq<seq<nat>>, entry: nat, m: Mates) {
    && |m| == |cand|
    && (forall v :: 0 <= v < |m| ==> MateOk(cand, entry, m, v))
    && (forall v, w :: 0 <= v < |m| && 0 <= w < |m| && v != w && m[v].Some? ==> m[v] != m[w])
  }

  ghost predicate Free(m: Mates, u: nat) {
    forall v :: 0 <= v < |m| ==> m[v] != Some(u)
  }

  /** m with the place being vacated left out. */
  ghost function Without(m: Mates, hole: Option<nat>): (r: Mates)
    ensures |r| == |m|
  {
    if hole.Some? && hole.value < |m| then m[hole.value := None] else m
  }

  /** Every allowed successor of u is in s. */
  ghost predicate Within(cand: seq<seq<nat>>, entry: nat, u: nat, s: set<nat>) {
    forall v :: Allowed(cand, entry, u, v) ==> v in s
  }

  /** A set no search can leave or end in: all matched, and the mates' successors are
      inside. */
  ghost predicate Closed(cand: seq<seq<nat>>, entry: nat, m: Mates, s: set<nat>) {
    forall v :: v in s ==> ClosedAt(cand, entry, m, s, v)
  }

  ghost predicate ClosedAt(cand: seq<seq<nat>>, entry: nat, m: Mates, s: set<nat>, v: nat) {
    v < |m| && v != entry && m[v].Some? && Within(cand, entry, m[v].value, s)
  }

  ghost function Marked(seen: seq<bool>): (s: set<nat>)
    ensures forall v: nat :: v in s <==> v < |seen| && seen[v]
  {
    set v | v in Upto(|seen|) && seen[v]
  }

  // ----- one augmenting search -----

  /** What a search from u starts from: hole is the place u is being moved from. */
  ghost predicate Ready(cand: seq<seq<nat>>, entry: nat, m: Mates, seen: seq<bool>, u: nat, hole: Option<nat>) {
    && CandsOk(cand) && ValidMates(cand, entry, m) && |seen| == |cand| && u < |cand|
    && (if hole.Some? then hole.value < |m| && m[hole.value] == Some(u) && seen[hole.value] else Free(m, u))
  }

  /** A successful search: the vacated place aside, a matching that covers u and all
      it covered before. */
  ghost predicate Augmented(cand: seq<seq<nat>>, entry: nat, m: Mates, r: Mates, u: nat, hole: Option<nat>) {
    && |r| == |m| && ValidMates(cand, entry, Without(r, hole)) && !Free(Without(r, hole), u)
    && (forall x: nat :: x != u ==> (Free(m, x) <==> Free(Without(r, hole), x)))
  }

  /** What every search keeps: marks grow, places marked before are untouched, and so is
      a closed set, which no search from inside it leaves. */
  ghost predicate Kept(cand: seq<seq<nat>>, entry: nat, m: Mates, r: Mates, s0: seq<bool>, s1: seq<bool>, u: nat, dead: set<nat>, ok: bool) {
    && |r| == |m| == |s0| == |s1|
    && (forall v :: 0 <= v < |s0| && s0[v] ==> s1[v] && r[v] == m[v])
    && (forall v :: v in dead && v < |m| ==> r[v] == m[v])
    && (Within(cand, entry, u, dead) ==> !ok)
  }

  /** A failed search has seen everything it could reach. */
  ghost predicate Exhausted(cand: seq<seq<nat>>, entry: nat, m: Mates, s0: seq<bool>, s1: seq<bool>, u: nat) {
    && Within(cand, entry, u, Marked(s1))
    && NewClosed(cand, entry, m, s0, s1)
  }

  ghost predicate NewClosed(cand: seq<seq<nat>>, entry: nat, m: Mates, s0: seq<bool>, s1: seq<bool>) {
    |s0| == |s1| && forall v :: 0 <= v < |s1| && s1[v] && !s0[v] ==> ClosedAt(cand, entry, m, Marked(s1), v)
  }

  lemma ReadyNext(cand: seq<seq<nat>>, entry: nat, m: Mates, seen: seq<bool>, u: nat, hole: Option<nat>, v: nat)
    requires Ready(cand, entry, m, seen, u, hole) && v < |m| && m[v].Some?
    ensures Ready(cand, entry, m, seen[v := true], m[v].value, Some(v))
  {
    assert MateOk(cand, entry, m, v);
  }

  /** Giving v to u, once v is free or its old mate has moved: q is the matching
      without v, w the one with v given to u and the hole left out. */
  lemma PlaceKeeps(cand: seq<seq<nat>>, entry: nat, r: Mates, u: nat, hole: Option<nat>, v: nat, q: Mates, w: Mates)
    requires v < |r| && q == r[v := None] && w == Without(r[v := Some(u)], hole)
    requires ValidMates(cand, entry, q) && Allowed(cand, entry, u, v)
    requires hole.Some? ==> hole.value < |r| && hole.value != v && r[hole.value] == Some(u)
    requires hole.None? ==> Free(q, u)
    ensures ValidMates(cand, entry, w) && !Free(w, u)
    ensures forall x: nat :: x != u ==> (Free(q, x) <==> Free(w, x))
  {
    assert w[v] == Some(u);
    forall y | 0 <= y < |w| && y != v
      ensures w[y] != Some(u)
    {
      assert w[y] == q[y] || w[y].None?;
      if hole.Some? && y != hole.value {
        assert q[hole.value] == Some(u) && q[hole.value] != q[y];
      }
    }
    assert forall y :: 0 <= y < |w| && y != v ==> w[y] == q[y] || w[y].None?;
    forall y | 0 <= y < |w|
      ensures MateOk(cand, entry, w, y)
    {
      assert MateOk(cand, entry, q, y);
    }
    forall a, b | 0 <= a < |w| && 0 <= b < |w| && a != b && w[a].Some?
      ensures w[a] != w[b]
    {
      if a != v && b != v {
        assert q[a] != q[b];
      }
    }
    forall x: nat | x != u
      ensures Free(q, x) <==> Free(w, x)
    {
      if !Free(q, x) {
        var y :| 0 <= y < |q| && q[y] == Some(x);
        assert w[y] == Some(x);
      }
      if !Free(w, x) {
        var y :| 0 <= y < |w| && w[y] == Some(x);
        assert q[y] == Some(x);
      }
    }
  }

  lemma PlaceFree(cand: seq<seq<nat>>, entry: nat, m: Mates, seen: seq<bool>, u: nat, hole: Option<nat>, v: nat)
    requires Ready(cand, entry, m, seen, u, hole) && v < |m| && m[v].None? && Allowed(cand, entry, u, v)
    ensures Augmented(cand, entry, m, m[v := Some(u)], u, hole)
  {
    assert m[v := None] == m;
    PlaceKeeps(cand, entry, m, u, hole, v, m, Without(m[v := Some(u)], hole));
  }

  lemma PlaceMoved(cand: seq<seq<nat>>, entry: nat, m: Mates, r: Mates, seen: seq<bool>, u: nat, hole: Option<nat>, v: nat)
    requires Ready(cand, entry, m, seen, u, hole) && v < |m| && m[v].Some? && Allowed(cand, entry, u, v) && !seen[v]
    requires Augmented(cand, entry, m, r, m[v].value, Some(v))
    requires hole.Some? ==> r[hole.value] == m[hole.value]
    ensures Augmented(cand, entry, m, r[v := Some(u)], u, hole)
  {
    hide ValidMates;
    var x := m[v].value;
    assert !Free(m, x);
    if hole.None? {
      assert x != u;
      assert Free(r[v := None], u);
    }
    PlaceKeeps(cand, entry, r, u, hole, v, r[v := None], Without(r[v := Some(u)], hole));
    forall y: nat | y != u
      ensures Free(m, y) <==> Free(Without(r[v := Some(u)], hole), y)
    {
      if y == x {
        assert !Free(r[v := None], x);
      } else {
        assert Free(m, y) <==> Free(r[v := None], y);
      }
    }
  }

  lemma NewClosedMore(cand: seq<seq<nat>>, entry: nat, m: Mates, s0: seq<bool>, s1: seq<bool>, s2: seq<bool>, v: nat)
    requires NewClosed(cand, entry, m, s0, s1) && v < |s1| && !s1[v] && v < |m| && m[v].Some? && v != entry
    requires |s2| == |s1| && (forall x :: 0 <= x < |s1| && s1[v := true][x] ==> s2[x])
    requires Exhausted(cand, entry, m, s1[v := true], s2, m[v].value)
    ensures NewClosed(cand, entry, m, s0, s2)
  {
    assert Marked(s1) <= Marked(s2);
    forall x | 0 <= x < |s2| && s2[x] && !s0[x]
      ensures ClosedAt(cand, entry, m, Marked(s2), x)
    {
      if s1[x] {
        assert ClosedAt(cand, entry, m, Marked(s1), x);
      } else if x != v {
        assert !s1[v := true][x];
      }
    }
  }

  ghost function Unmarked(seen: seq<bool>): (s: set<nat>)
    ensures forall v: nat :: v in s <==> v < |seen| && !seen[v]
  {
    set v | v in Upto(|seen|) && !seen[v]
  }

  /** Looks for an augmenting path from u, rematching along it on success. */
  method Try(cand: seq<seq<nat>>, entry: nat, matchR: array<Option<nat>>, seen: array<bool>, u: nat,
             ghost hole: Option<nat>, ghost dead: set<nat>) returns (ok: bool)
    requires matchR.Length == seen.Length == |cand|
    requires Ready(cand, entry, matchR[..], seen[..], u, hole) && Closed(cand, entry, matchR[..], dead)
    modifies matchR, seen
    ensures Kept(cand, entry, old(matchR[..]), matchR[..], old(seen[..]), seen[..], u, dead, ok)
    ensures ok ==> Augmented(cand, entry, old(matchR[..]), matchR[..], u, hole)
    ensures !ok ==> matchR[..] == old(matchR[..]) && Exhausted(cand, entry, old(matchR[..]), old(seen[..]), seen[..], u)
    decreases Unmarked(seen[..])
  {
    hide Ready, Closed, Augmented, Exhausted, NewClosed, Within, Marked, ClosedAt, Unmarked;
    ghost var m, s0 := matchR[..], seen[..];
    ReadyRange(cand, entry, m, s0, u, hole);
    NothingNew(cand, entry, m, s0);
    for i := 0 to |cand[u]|
      invariant matchR[..] == m && |seen[..]| == |s0| && NewClosed(cand, entry, m, s0, seen[..])
      invariant forall v :: 0 <= v < |s0| && s0[v] ==> seen[..][v]
      invariant forall j :: 0 <= j < i ==> cand[u][j] == entry || (cand[u][j] < |s0| && seen[..][cand[u][j]])
    {
      var v := cand[u][i];
      if v == entry || seen[v] {
        continue;
      }
      ghost var s1 := seen[..];
      seen[v] := true;
      assert seen[..] == s1[v := true];
      assert v in cand[u] && Allowed(cand, entry, u, v);
      if matchR[v].None? {
        PlaceFree(cand, entry, m, s0, u, hole, v);
        ClosedHas(cand, entry, m, dead, u, v);
        matchR[v] := Some(u);
        assert matchR[..] == m[v := Some(u)];
        return true;
      }
      ReadyGrown(cand, entry, m, s0, s1, u, hole);
      ReadyNext(cand, entry, m, s1, u, hole, v);
      Fewer(s0, s1, v);
      var moved := Try(cand, entry, matchR, seen, matchR[v].value, Some(v), dead);
      if moved {
        ghost var r := matchR[..];
        ClosedHas(cand, entry, m, dead, u, v);
        HoleSeen(cand, entry, m, s0, u, hole);
        PlaceMoved(cand, entry, m, r, s1, u, hole, v);
        matchR[v] := Some(u);
        assert matchR[..] == r[v := Some(u)];
        return true;
      }
      NewClosedMore(cand, entry, m, s0, s1, seen[..], v);
    }
    AllSeen(cand, entry, m, s0, seen[..], u);
    ok := false;
  }

  lemma ReadyRange(cand: seq<seq<nat>>, entry: nat, m: Mates, seen: seq<bool>, u: nat, hole: Option<nat>)
    requires Ready(cand, entry, m, seen, u, hole)
    ensures u < |cand| && forall j :: 0 <= j < |cand[u]| ==> cand[u][j] < |cand|
  {
  }

  lemma HoleSeen(cand: seq<seq<nat>>, entry: nat, m: Mates, seen: seq<bool>, u: nat, hole: Option<nat>)
    requires Ready(cand, entry, m, seen, u, hole)
    ensures hole.Some? ==> hole.value < |m| && hole.value < |seen| && seen[hole.value]
  {
  }

  lemma ReadyGrown(cand: seq<seq<nat>>, entry: nat, m: Mates, s0: seq<bool>, s1: seq<bool>, u: nat, hole: Option<nat>)
    requires Ready(cand, entry, m, s0, u, hole) && |s1| == |s0| && forall v :: 0 <= v < |s0| && s0[v] ==> s1[v]
    ensures Ready(cand, entry, m, s1, u, hole)
  {
  }

  lemma NothingNew(cand: seq<seq<nat>>, entry: nat, m: Mates, s: seq<bool>)
    ensures NewClosed(cand, entry, m, s, s)
  {
  }

  lemma Fewer(s0: seq<bool>, s1: seq<bool>, v: nat)
    requires |s0| == |s1| && v < |s1| && !s1[v] && forall x :: 0 <= x < |s0| && s0[x] ==> s1[x]
    ensures Unmarked(s1[v := true]) < Unmarked(s0)
  {
    assert v in Unmarked(s0);
  }

  /** In a closed set: matched, and its mate cannot get out; from inside one, v is in it. */
  lemma ClosedHas(cand: seq<seq<nat>>, entry: nat, m: Mates, dead: set<nat>, u: nat, v: nat)
    requires Closed(cand, entry, m, dead) && Allowed(cand, entry, u, v)
    ensures Within(cand, entry, u, dead) ==> v in dead
    ensures v in dead ==> v < |m| && m[v].Some? && Within(cand, entry, m[v].value, dead)
  {
    if v in dead {
      assert ClosedAt(cand, entry, m, dead, v);
    }
  }

  lemma AllSeen(cand: seq<seq<nat>>, entry: nat, m: Mates, s0: seq<bool>, s1: seq<bool>, u: nat)
    requires u < |cand| && |s0| == |s1| && NewClosed(cand, entry, m, s0, s1)
    requires forall j :: 0 <= j < |cand[u]| ==> cand[u][j] == entry || (cand[u][j] < |s0| && s1[cand[u][j]])
    ensures Exhausted(cand, entry, m, s0, s1, u)
  {
    forall v | Allowed(cand, entry, u, v)
      ensures v in Marked(s1)
    {
      var j :| 0 <= j < |cand[u]| && cand[u][j] == v;
    }
  }

  // ----- the whole matching -----

  /** u is matched, or nothing it could be followed by can be freed. */
  ghost predicate Settled(cand: seq<seq<nat>>, entry: nat, m: Mates, dead: set<nat>, u: nat) {
    !Free(m, u) || Within(cand, entry, u, dead)
  }

  /** The first k blocks are settled; dead is closed. */
  ghost predicate Progress(cand: seq<seq<nat>>, entry: nat, m: Mates, dead: set<nat>, k: nat) {
    && ValidMates(cand, entry, m) && Closed(cand, entry, m, dead)
    && (forall u: nat :: u < k ==> Settled(cand, entry, m, dead, u))
    && (forall u: nat :: u >= k ==> Free(m, u))
  }

  lemma FailedIsDead(cand: seq<seq<nat>>, entry: nat, m: Mates, dead: set<nat>, s0: seq<bool>, s1: seq<bool>, k: nat)
    requires Progress(cand, entry, m, dead, k) && |s0| == |cand| && (forall v :: 0 <= v < |s0| ==> !s0[v])
    requires Exhausted(cand, entry, m, s0, s1, k)
    ensures Progress(cand, entry, m, dead + Marked(s1), k + 1)
  {
    var d := dead + Marked(s1);
    forall v | v in d
      ensures ClosedAt(cand, entry, m, d, v)
    {
      if v in dead {
        assert ClosedAt(cand, entry, m, dead, v);
      } else {
        assert ClosedAt(cand, entry, m, Marked(s1), v);
      }
    }
    forall u: nat | u < k + 1
      ensures Settled(cand, entry, m, d, u)
    {
      if u < k {
        assert Settled(cand, entry, m, dead, u);
      }
    }
  }

  lemma AugmentedIsProgress(cand: seq<seq<nat>>, entry: nat, m: Mates, r: Mates, dead: set<nat>, k: nat)
    requires Progress(cand, entry, m, dead, k) && Augmented(cand, entry, m, r, k, None) && forall v :: v in dead && v < |m| ==> r[v] == m[v]
    ensures Progress(cand, entry, r, dead, k + 1)
  {
    hide ValidMates, Within, Free;
    assert Without(r, None) == r;
    forall v | v in dead
      ensures ClosedAt(cand, entry, r, dead, v)
    {
      assert ClosedAt(cand, entry, m, dead, v);
    }
    forall u: nat | u < k + 1
      ensures Settled(cand, entry, r, dead, u)
    {
      if u < k {
        assert Settled(cand, entry, m, dead, u);
      }
    }
  }

  lemma NothingAllowed(cand: seq<seq<nat>>, entry: nat, m: Mates, dead: set<nat>, k: nat)
    requires Progress(cand, entry, m, dead, k) && k < |cand| && cand[k] == []
    ensures Progress(cand, entry, m, dead, k + 1)
  {
    hide ValidMates;
    assert Within(cand, entry, k, dead);
  }

  lemma StartProgress(cand: seq<seq<nat>>, entry: nat, m: Mates)
    requires |m| == |cand| && forall v :: 0 <= v < |m| ==> m[v].None?
    ensures Progress(cand, entry, m, {}, 0)
  {
  }

  lemma ReadyFresh(cand: seq<seq<nat>>, entry: nat, m: Mates, dead: set<nat>, k: nat, seen: seq<bool>)
    requires CandsOk(cand) && Progress(cand, entry, m, dead, k) && k < |cand| == |seen|
    ensures Ready(cand, entry, m, seen, k, None) && Closed(cand, entry, m, dead)
  {
  }

  /** The matching: each block in turn looks for a successor. */
  method MatchBlocks(cand: seq<seq<nat>>, entry: nat) returns (mates: Mates, ghost dead: set<nat>)
    requires CandsOk(cand)
    ensures Progress(cand, entry, mates, dead, |cand|)
  {
    hide Progress, CandsOk, Ready, Closed, Exhausted, Augmented;
    var matchR: array<Option<nat>> := new Option<nat>[|cand|](_ => None);
    dead := {};
    StartProgress(cand, entry, matchR[..]);
    for u := 0 to |cand|
      invariant Progress(cand, entry, matchR[..], dead, u)
    {
      ghost var m := matchR[..];
      if |cand[u]| > 0 {
        var seen := new bool[|cand|](_ => false);
        ghost var s0 := seen[..];
        assert forall v :: 0 <= v < |s0| ==> !s0[v];
        ReadyFresh(cand, entry, m, dead, u, s0);
        var ok := Try(cand, entry, matchR, seen, u, None, dead);
        if ok {
          AugmentedIsProgress(cand, entry, m, matchR[..], dead, u);
        } else {
          FailedIsDead(cand, entry, m, dead, s0, seen[..], u);
          dead := dead + Marked(seen[..]);
        }
      } else {
        NothingAllowed(cand, entry, m, dead, u);
      }
    }
    mates := matchR[..];
  }

  // ----- it is maximum -----

  /** A set of fall-through edges some layout could realise: allowed, one successor and
      one predecessor per block. */
  ghost predicate FallThroughs(cand: seq<seq<nat>>, entry: nat, e: set<(nat, nat)>) {
    && (forall p :: p in e ==> Allowed(cand, entry, p.0, p.1))
    && (forall p, q :: p in e && q in e && (p.0 == q.0 || p.1 == q.1) ==> p == q)
  }

  ghost function Edges(m: Mates): (e: set<(nat, nat)>)
    ensures forall u: nat, v: nat :: (u, v) in e <==> v < |m| && m[v] == Some(u)
  {
    set v | v in Upto(|m|) && m[v].Some? :: (m[v].value, v)
  }

  lemma EdgesFallThrough(cand: seq<seq<nat>>, entry: nat, m: Mates)
    requires ValidMates(cand, entry, m)
    ensures FallThroughs(cand, entry, Edges(m))
  {
    forall p | p in Edges(m)
      ensures Allowed(cand, entry, p.0, p.1)
    {
      assert MateOk(cand, entry, m, p.1);
    }
  }

  /** Where a rival edge is charged: to the matched edge into the same block if that
      block is dead, else to the matched edge out of the same block. */
  ghost function Charge(m: Mates, dead: set<nat>, p: (nat, nat)): (q: (nat, nat))
    requires p.1 in dead ==> p.1 < |m| && m[p.1].Some?
    requires p.1 !in dead ==> !Free(m, p.0)
  {
    if p.1 in dead then (m[p.1].value, p.1) else var v: nat :| v < |m| && m[v] == Some(p.0); (p.0, v)
  }

  ghost predicate Chargeable(m: Mates, dead: set<nat>, p: (nat, nat)) {
    if p.1 in dead then p.1 < |m| && m[p.1].Some? else !Free(m, p.0)
  }

  /** An edge leaving the dead set's complement starts at a matched block whose own
      successor is not dead either. */
  lemma ChargeOk(cand: seq<seq<nat>>, entry: nat, m: Mates, dead: set<nat>, p: (nat, nat))
    requires Progress(cand, entry, m, dead, |cand|) && Allowed(cand, entry, p.0, p.1)
    ensures Chargeable(m, dead, p) && Charge(m, dead, p) in Edges(m) && (Charge(m, dead, p).1 in dead <==> p.1 in dead)
  {
    if p.1 in dead {
      assert ClosedAt(cand, entry, m, dead, p.1);
    } else {
      assert Settled(cand, entry, m, dead, p.0);
      assert !Within(cand, entry, p.0, dead);
      var q := Charge(m, dead, p);
      assert q.1 in dead ==> ClosedAt(cand, entry, m, dead, q.1);
    }
  }

  /** No realisable set of fall-through edges is larger than the matching found. */
  lemma MatchingIsMaximum(cand: seq<seq<nat>>, entry: nat, m: Mates, dead: set<nat>, e: set<(nat, nat)>)
    requires Progress(cand, entry, m, dead, |cand|) && FallThroughs(cand, entry, e)
    ensures |e| <= |Edges(m)|
  {
    hide Progress, Edges;
    forall p | p in e
      ensures Chargeable(m, dead, p) && Charge(m, dead, p) in Edges(m) && (Charge(m, dead, p).1 in dead <==> p.1 in dead)
    {
      ChargeOk(cand, entry, m, dead, p);
    }
    var f := map p | p in e :: Charge(m, dead, p);
    forall p, q | p in e && q in e && f[p] == f[q]
      ensures p == q
    {
      assert Charge(m, dead, p) == Charge(m, dead, q);
    }
    InjectiveCount(e, Edges(m), f);
  }
}
