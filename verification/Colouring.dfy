/** Chaitin-Briggs colouring with forbidden colours and optimistic spilling
    (amd64/gcalloc.go, arm64/gcalloc.go). Costs and preferences are inputs: what is
    proved holds for every choice they make. */
module Colouring {
  import opened Graphs

  /** A register assignment: a register, a stack slot, or neither yet. `width` is the
      size of each temporary's slot, sixteen bytes for a vector; one that is recomputed
      at each use needs none. */
  datatype Alloc = Alloc(reg: seq<Option<nat>>, slot: seq<Option<nat>>, width: seq<nat>, spillBytes: nat)

  /** Colourable temporaries, their neighbours, the registers each may not use, and the
      registers of each one's class in allocation order. */
  datatype Graph = Graph(node: seq<bool>, adj: seq<set<nat>>, forb: seq<set<nat>>, pool: seq<seq<nat>>)

  /** Edges join two different colourable temporaries, and are recorded at both. */
  ghost predicate EdgeOk(g: Graph, a: nat, b: nat) {
    && a != b && a < |g.adj| && b < |g.adj| && b < |g.node| && a < |g.node|
    && a in g.adj[b] && g.node[a] && g.node[b]
  }

  ghost predicate ValidGraph(g: Graph) {
    && |g.node| == |g.adj| == |g.forb| == |g.pool|
    && (forall a: nat, b: nat :: a < |g.adj| && b in g.adj[a] ==> EdgeOk(g, a, b))
    && (forall a :: 0 <= a < |g.pool| ==> Distinct(g.pool[a]))
  }

  /** The registers t could take: its class's, less the forbidden ones. */
  ghost function Available(g: Graph, t: nat): (s: set<nat>)
    requires ValidGraph(g) && t < |g.node|
    ensures forall r :: r in s <==> r in g.pool[t] && r !in g.forb[t]
  {
    set r | r in g.pool[t] && r !in g.forb[t]
  }

  ghost predicate RegOk(g: Graph, reg: seq<Option<nat>>, t: nat)
    requires ValidGraph(g) && |reg| == |g.node| && t < |g.node|
  {
    g.node[t] && reg[t].Some? ==> reg[t].value in g.pool[t] && reg[t].value !in g.forb[t]
  }

  /** No two neighbours share a register, and no node holds a forbidden one. */
  ghost predicate Proper(g: Graph, reg: seq<Option<nat>>) {
    && ValidGraph(g) && |reg| == |g.node|
    && (forall t :: 0 <= t < |reg| ==> RegOk(g, reg, t))
    && (forall a: nat, b: nat :: a < |reg| && b in g.adj[a] ==> Differ(reg, a, b))
  }

  ghost predicate Differ(reg: seq<Option<nat>>, a: nat, b: nat) {
    a < |reg| && b < |reg| && (reg[a].Some? && reg[b].Some? ==> reg[a] != reg[b])
  }

  ghost predicate WidthsOk(width: seq<nat>) {
    forall t :: 0 <= t < |width| ==> width[t] == 0 || width[t] == 8 || width[t] == 16
  }

  predicate Aligned(at: nat, width: nat) {
    if width == 16 then at % 16 == 0 else at % 8 == 0
  }

  /** An aligned place inside the spill area. */
  ghost predicate SlotAt(a: Alloc, t: nat) {
    && t < |a.slot| && t < |a.width|
    && (a.slot[t].Some? ==> a.width[t] > 0 && Aligned(a.slot[t].value, a.width[t]) && a.slot[t].value + a.width[t] <= a.spillBytes)
  }

  ghost predicate SlotsDisjoint(a: Alloc, t: nat, u: nat) {
    && t < |a.slot| && t < |a.width| && u < |a.slot| && u < |a.width|
    && (a.slot[t].Some? && a.slot[u].Some? ==>
          a.slot[t].value + a.width[t] <= a.slot[u].value || a.slot[u].value + a.width[u] <= a.slot[t].value)
  }

  ghost predicate SlotsOk(a: Alloc) {
    && |a.slot| == |a.reg| == |a.width| && WidthsOk(a.width)
    && (forall t :: 0 <= t < |a.slot| ==> SlotAt(a, t))
    && (forall t, u :: 0 <= t < u < |a.slot| ==> SlotsDisjoint(a, t, u))
    && a.spillBytes % 8 == 0
  }

  /** The next multiple of eight or sixteen. */
  function AlignTo(n: nat, width: nat): (m: nat)
    requires width == 8 || width == 16
  {
    if width == 8 then (n + 7) / 8 * 8 else (n + 15) / 16 * 16
  }

  /** Gives t the next stack slot, when it needs one. */
  function Spill(a: Alloc, t: nat): (r: Alloc)
    requires t < |a.reg| && |a.slot| == |a.reg| == |a.width| && WidthsOk(a.width)
    ensures |r.reg| == |r.slot| == |a.reg| && r.width == a.width
    ensures r.reg == a.reg[t := None] && forall u :: 0 <= u < |a.slot| && u != t ==> r.slot[u] == a.slot[u]
    ensures r.slot[t].Some? <==> a.width[t] > 0
  {
    if a.width[t] == 0 then a.(reg := a.reg[t := None], slot := a.slot[t := None])
    else
      var at := AlignTo(a.spillBytes, a.width[t]);
      Alloc(a.reg[t := None], a.slot[t := Some(at)], a.width, at + a.width[t])
  }

  /** The slot is the least multiple of its width from the end of the area, which grows by
      that; all slots stay apart. */
  lemma SpillKeeps(a: Alloc, t: nat)
    requires SlotsOk(a) && t < |a.reg|
    ensures SlotsOk(Spill(a, t))
    ensures var r := Spill(a, t);
            if a.width[t] == 0 then r.slot[t].None? && r.spillBytes == a.spillBytes
            else r.slot[t].Some? && r.slot[t].value % a.width[t] == 0 && r.slot[t].value <= r.spillBytes == r.slot[t].value + a.width[t]
                 && a.spillBytes <= r.slot[t].value < a.spillBytes + a.width[t]
  {
    var r := Spill(a, t);
    SpillPlaces(a, t);
    assert a.width[t] == 8 ==> r.slot[t].value % 8 == 0 && r.slot[t].value < a.spillBytes + 8 by {
      EightsUp(a.spillBytes);
    }
    assert a.width[t] == 16 ==> r.slot[t].value % 16 == 0 && r.slot[t].value < a.spillBytes + 16 by {
      SixteensUp(a.spillBytes);
    }
    forall x | 0 <= x < |r.slot|
      ensures SlotAt(r, x)
    {
      assert SlotAt(a, x);
      if x != t {
        SlotGrows(a, r, x);
      }
    }
    forall x, y | 0 <= x < y < |r.slot|
      ensures SlotsDisjoint(r, x, y)
    {
      assert SlotsDisjoint(a, x, y) && SlotAt(a, x) && SlotAt(a, y);
    }
  }

  /** What slots are: eight bytes or sixteen at a multiple of that, within the area, no two
      sharing a byte. */
  lemma SlotsAre(a: Alloc, t: nat, u: nat)
    requires SlotsOk(a) && t < |a.slot| && u < |a.slot| && t != u && a.slot[t].Some?
    ensures |a.slot| == |a.width| && (a.width[t] == 8 || a.width[t] == 16)
    ensures a.slot[t].value % a.width[t] == 0 && a.slot[t].value + a.width[t] <= a.spillBytes
    ensures a.slot[u].Some? ==> a.slot[t].value + a.width[t] <= a.slot[u].value || a.slot[u].value + a.width[u] <= a.slot[t].value
  {
    assert SlotAt(a, t) && SlotsDisjoint(a, if t < u then t else u, if t < u then u else t);
  }

  lemma EightsUp(n: nat)
    ensures var m := (n + 7) / 8 * 8; n <= m < n + 8 && m % 8 == 0 && (m + 8) % 8 == 0
  {
    var q := (n + 7) / 8;
    assert q * 8 <= n + 7 < q * 8 + 8;
  }

  lemma SixteensUp(n: nat)
    ensures var m := (n + 15) / 16 * 16; n <= m < n + 16 && m % 16 == 0
  {
    var q := (n + 15) / 16;
    assert q * 16 <= n + 15 < q * 16 + 16;
  }

  lemma SixteensAreEights(m: nat)
    requires m % 16 == 0
    ensures (m + 16) % 8 == 0
  {
    assert m + 16 == 8 * (2 * (m / 16) + 2);
  }

  lemma SpillPlaces(a: Alloc, t: nat)
    requires t < |a.reg| && |a.slot| == |a.reg| == |a.width| && WidthsOk(a.width) && a.spillBytes % 8 == 0
    ensures var r := Spill(a, t); SlotAt(r, t) && r.spillBytes >= a.spillBytes && r.spillBytes % 8 == 0
    ensures var r := Spill(a, t); r.slot[t].Some? ==> r.slot[t].value >= a.spillBytes
  {
    if a.width[t] == 8 {
      EightsUp(a.spillBytes);
    } else if a.width[t] == 16 {
      SixteensUp(a.spillBytes);
      SixteensAreEights(AlignTo(a.spillBytes, 16));
    }
  }

  lemma SlotGrows(a: Alloc, r: Alloc, x: nat)
    requires SlotAt(a, x) && x < |r.slot| && r.slot[x] == a.slot[x] && r.width == a.width && r.spillBytes >= a.spillBytes
    ensures SlotAt(r, x)
  {
  }

  /** The slots do not depend on who holds which register. */
  lemma RegKeepsSlots(a: Alloc, reg: seq<Option<nat>>)
    requires SlotsOk(a) && |reg| == |a.reg|
    ensures SlotsOk(a.(reg := reg))
  {
    var r := a.(reg := reg);
    forall x | 0 <= x < |r.slot|
      ensures SlotAt(r, x)
    {
      assert SlotAt(a, x);
      SlotGrows(a, r, x);
    }
    forall x, y | 0 <= x < y < |r.slot|
      ensures SlotsDisjoint(r, x, y)
    {
      assert SlotsDisjoint(a, x, y);
    }
  }

  /** In a register or in a slot; one needing no slot may be in neither. */
  ghost predicate Housed(a: Alloc, t: nat) {
    && t < |a.reg| && t < |a.slot| && t < |a.width|
    && if a.width[t] == 0 then a.slot[t].None? else a.reg[t].Some? != a.slot[t].Some?
  }

  /** Out of registers, and in a slot if it needs one. */
  ghost predicate OnStack(a: Alloc, t: nat) {
    Housed(a, t) && a.reg[t].None?
  }

  // ----- simplify -----

  /** Blocks still in the graph. */
  ghost function Active(removed: seq<bool>): (s: set<nat>)
    ensures forall t: nat :: t in s <==> t < |removed| && !removed[t]
  {
    set t | t in Upto(|removed|) && !removed[t]
  }

  /** How many of t's neighbours remain. */
  ghost function Deg(g: Graph, removed: seq<bool>, t: nat): nat
    requires t < |g.adj|
  {
    |g.adj[t] * Active(removed)|
  }

  /** Each remaining node's degree is the number of its remaining neighbours. */
  ghost predicate DegreesOk(g: Graph, removed: seq<bool>, degree: seq<nat>) {
    && |degree| == |removed| == |g.adj|
    && forall t :: 0 <= t < |degree| && !removed[t] ==> degree[t] == Deg(g, removed, t)
  }

  method CountDegree(neighbours: set<nat>, removed: seq<bool>) returns (d: nat)
    requires forall w :: w in neighbours ==> w < |removed|
    ensures d == |neighbours * Active(removed)|
  {
    hide Active;
    d := 0;
    var rest := neighbours;
    CountNone(neighbours, Active(removed));
    while rest != {}
      invariant rest <= neighbours && d == |(neighbours - rest) * Active(removed)|
      decreases rest
    {
      var w :| w in rest;
      CountOne(neighbours, rest, Active(removed), w);
      if !removed[w] {
        d := d + 1;
      }
      rest := rest - {w};
    }
    assert neighbours - {} == neighbours;
  }

  lemma CountNone(all: set<nat>, active: set<nat>)
    ensures |(all - all) * active| == 0
  {
    assert (all - all) * active == {};
  }

  lemma CountOne(all: set<nat>, rest: set<nat>, active: set<nat>, w: nat)
    requires rest <= all && w in rest
    ensures |(all - (rest - {w})) * active| == |(all - rest) * active| + (if w in active then 1 else 0)
  {
    var before := (all - rest) * active;
    if w in active {
      assert (all - (rest - {w})) * active == before + {w};
    } else {
      assert (all - (rest - {w})) * active == before;
    }
  }

  method Degrees(g: Graph, removed: seq<bool>) returns (degree: seq<nat>)
    requires ValidGraph(g) && |removed| == |g.node|
    ensures DegreesOk(g, removed, degree)
  {
    hide Active, Deg;
    degree := [];
    for t := 0 to |removed|
      invariant |degree| == t
      invariant forall u :: 0 <= u < t && !removed[u] ==> degree[u] == Deg(g, removed, u)
    {
      var d := 0;
      if !removed[t] {
        d := DegreeOf(g, removed, t);
      }
      degree := degree + [d];
    }
  }

  method DegreeOf(g: Graph, removed: seq<bool>, t: nat) returns (d: nat)
    requires ValidGraph(g) && |removed| == |g.node| && t < |g.node|
    ensures d == Deg(g, removed, t)
  {
    NeighboursInRange(g, t);
    d := CountDegree(g.adj[t], removed);
  }

  lemma DropNeighbour(s: set<nat>, a: set<nat>, b: nat)
    requires b in a
    ensures |s * (a - {b})| == if b in s then |s * a| - 1 else |s * a|
  {
    if b in s {
      assert s * a == s * (a - {b}) + {b};
    } else {
      assert s * a == s * (a - {b});
    }
  }

  /** Takes a node out of the graph and lowers its remaining neighbours' degrees. */
  method Remove(g: Graph, removed0: seq<bool>, degree0: seq<nat>, best: nat) returns (removed: seq<bool>, degree: seq<nat>)
    requires ValidGraph(g) && DegreesOk(g, removed0, degree0) && best < |removed0| && !removed0[best]
    ensures removed == removed0[best := true] && DegreesOk(g, removed, degree)
  {
    hide Active, ValidGraph, Deg;
    removed, degree := removed0[best := true], degree0;
    NeighboursInRange(g, best);
    var rest := g.adj[best];
    while rest != {}
      invariant rest <= g.adj[best] && |degree| == |degree0|
      invariant forall t :: 0 <= t < |degree| && !removed[t] ==> degree[t] + (if t in g.adj[best] - rest then 1 else 0) == degree0[t]
      decreases rest
    {
      var w :| w in rest;
      if !removed[w] {
        DegAfter(g, removed0, best, w);
        degree := degree[w := degree[w] - 1];
      }
      rest := rest - {w};
    }
    forall t: nat | t < |degree| && !removed[t]
      ensures degree[t] == Deg(g, removed, t)
    {
      DegAfter(g, removed0, best, t);
    }
  }

  lemma DegAfter(g: Graph, removed: seq<bool>, best: nat, t: nat)
    requires ValidGraph(g) && |removed| == |g.adj| && best < |removed| && !removed[best] && t < |g.adj|
    ensures Deg(g, removed[best := true], t) == Deg(g, removed, t) - (if t in g.adj[best] then 1 else 0)
  {
    ActiveWithout(removed, best);
    DropNeighbour(g.adj[t], Active(removed), best);
    if t in g.adj[best] {
      EdgeSymmetric(g, best, t);
    } else if best in g.adj[t] {
      EdgeSymmetric(g, t, best);
    }
  }

  lemma EdgeSymmetric(g: Graph, a: nat, b: nat)
    requires ValidGraph(g) && a < |g.adj| && b in g.adj[a]
    ensures EdgeOk(g, a, b)
  {
  }

  lemma NeighboursInRange(g: Graph, a: nat)
    requires ValidGraph(g) && a < |g.adj|
    ensures forall w :: w in g.adj[a] ==> w < |g.adj|
  {
    forall w | w in g.adj[a]
      ensures w < |g.adj|
    {
      assert EdgeOk(g, a, w);
    }
  }

  lemma ActiveWithout(removed: seq<bool>, b: nat)
    requires b < |removed| && !removed[b]
    ensures Active(removed[b := true]) == Active(removed) - {b} && b in Active(removed)
  {
  }

  /** How many colours a node could take: its pool less its forbidden registers. */
  method CountAvailable(pool: seq<nat>, forb: set<nat>) returns (k: nat)
    requires Distinct(pool)
    ensures k == |set r | r in pool && r !in forb|
  {
    k := 0;
    ghost var found: set<nat> := {};
    for i := 0 to |pool|
      invariant forall r :: r in found <==> r in pool[..i] && r !in forb
      invariant k == |found|
    {
      assert pool[..i + 1] == pool[..i] + [pool[i]];
      if pool[i] !in forb {
        k := k + 1;
        found := found + {pool[i]};
      }
    }
    assert pool[..|pool|] == pool;
    assert found == set r | r in pool && r !in forb;
  }

  /** The nodes still to be coloured when stack entry i is popped last-in first-out. */
  ghost function Later(stack: seq<nat>, i: nat, active: set<nat>): set<nat>
    requires i < |stack|
  {
    active + Members(stack[i + 1..])
  }

  /** How many of t's neighbours are in s. */
  ghost function Crowd(g: Graph, t: nat, s: set<nat>): nat
    requires t < |g.adj|
  {
    |g.adj[t] * s|
  }

  lemma CrowdWithout(g: Graph, t: nat, s: set<nat>)
    requires t < |g.adj| && t !in g.adj[t]
    ensures Crowd(g, t, s - {t}) == Crowd(g, t, s)
  {
    assert g.adj[t] * (s - {t}) == g.adj[t] * s;
  }

  /** The nodes pushed as certain are those with fewer neighbours left than colours. */
  ghost predicate SureAt(g: Graph, stack: seq<nat>, i: nat, active: set<nat>, avail: seq<nat>, sure: set<nat>)
    requires i < |stack|
  {
    stack[i] < |g.adj| && stack[i] < |avail| && (stack[i] in sure <==> Crowd(g, stack[i], Later(stack, i, active)) < avail[stack[i]])
  }

  ghost predicate Stacked(g: Graph, start: set<nat>, stack: seq<nat>, active: set<nat>, avail: seq<nat>, sure: set<nat>) {
    && Distinct(stack) && Members(stack) !! active && Members(stack) + active == start && sure <= Members(stack)
    && forall i :: 0 <= i < |stack| ==> SureAt(g, stack, i, active, avail, sure)
  }

  lemma PushKeeps(g: Graph, start: set<nat>, stack: seq<nat>, active: set<nat>, avail: seq<nat>, sure: set<nat>, t: nat, low: bool)
    requires Stacked(g, start, stack, active, avail, sure) && t in active && t < |g.adj| && t < |avail| && t !in g.adj[t]
    requires low <==> Crowd(g, t, active) < avail[t]
    ensures Stacked(g, start, stack + [t], active - {t}, avail, if low then sure + {t} else sure - {t})
  {
    hide Crowd;
    CrowdWithout(g, t, active);
    var stack', active', sure' := stack + [t], active - {t}, if low then sure + {t} else sure - {t};
    assert Members(stack') == Members(stack) + {t};
    forall i | 0 <= i < |stack'|
      ensures SureAt(g, stack', i, active', avail, sure')
    {
      if i < |stack| {
        assert SureAt(g, stack, i, active, avail, sure);
        assert stack[i] in stack;
        assert stack'[i + 1..] == stack[i + 1..] + [t];
        assert Later(stack', i, active') == Later(stack, i, active);
      } else {
        assert stack'[i + 1..] == [];
        assert Later(stack', i, active') == active - {t};
      }
    }
  }

  /** The best certain node by the caller's preference, else the cheapest to spill. */
  method Choose(removed: seq<bool>, degree: seq<nat>, avail: seq<nat>,
                before: (nat, nat, nat, nat) -> bool, cheaper: (nat, nat, nat, nat) -> bool)
    returns (best: nat, low: bool)
    requires |removed| == |degree| == |avail| && exists t :: 0 <= t < |removed| && !removed[t]
    ensures best < |removed| && !removed[best]
    ensures low <==> exists t :: 0 <= t < |removed| && !removed[t] && degree[t] < avail[t]
    ensures low <==> degree[best] < avail[best]
  {
    var lo, cand := -1, -1;
    for t := 0 to |removed|
      invariant -1 <= lo < t && -1 <= cand < t
      invariant lo >= 0 ==> !removed[lo] && degree[lo] < avail[lo]
      invariant lo < 0 ==> forall u :: 0 <= u < t && !removed[u] ==> degree[u] >= avail[u]
      invariant cand >= 0 ==> !removed[cand]
      invariant cand < 0 ==> forall u :: 0 <= u < t ==> removed[u]
    {
      if removed[t] {
        continue;
      }
      if degree[t] < avail[t] {
        if lo < 0 || before(t, degree[t], lo, degree[lo]) {
          lo := t;
        }
      }
      if cand < 0 || cheaper(t, degree[t], cand, degree[cand]) {
        cand := t;
      }
    }
    best, low := if lo >= 0 then lo else cand, lo >= 0;
  }

  /** Simplify: empties the graph onto a stack. `sure` is the nodes removed while they
      had fewer neighbours left than available colours. */
  method Simplify(g: Graph, removed0: seq<bool>, avail: seq<nat>,
                  before: (nat, nat, nat, nat) -> bool, cheaper: (nat, nat, nat, nat) -> bool)
    returns (stack: seq<nat>, ghost sure: set<nat>)
    requires ValidGraph(g) && |removed0| == |g.node| == |avail|
    ensures Stacked(g, Active(removed0), stack, {}, avail, sure)
  {
    hide ValidGraph, DegreesOk, Stacked, Active;
    var removed := removed0;
    var degree := Degrees(g, removed);
    ghost var start := Active(removed0);
    stack, sure := [], {};
    EmptyStack(g, start, avail);
    var more := SomeActive(removed);
    while more
      invariant |removed| == |g.node| == |avail| && |g.adj| == |g.node| && DegreesOk(g, removed, degree)
      invariant Stacked(g, start, stack, Active(removed), avail, sure)
      invariant more <==> exists t :: 0 <= t < |removed| && !removed[t]
      decreases Active(removed)
    {
      DegreesLength(g, removed, degree);
      var best, low := Choose(removed, degree, avail, before, cheaper);
      NotOwnNeighbour(g, best);
      DegreeMeans(g, removed, degree, best);
      PushKeeps(g, start, stack, Active(removed), avail, sure, best, low);
      ActiveWithout(removed, best);
      removed, degree := Remove(g, removed, degree, best);
      stack := stack + [best];
      sure := if low then sure + {best} else sure - {best};
      more := SomeActive(removed);
    }
    NoneActive(removed);
  }

  lemma EmptyStack(g: Graph, start: set<nat>, avail: seq<nat>)
    requires ValidGraph(g)
    ensures Stacked(g, start, [], start, avail, {}) && |g.adj| == |g.node|
  {
  }

  method SomeActive(removed: seq<bool>) returns (more: bool)
    ensures more <==> exists t :: 0 <= t < |removed| && !removed[t]
  {
    more := exists t :: 0 <= t < |removed| && !removed[t];
  }

  lemma DegreesLength(g: Graph, removed: seq<bool>, degree: seq<nat>)
    requires DegreesOk(g, removed, degree)
    ensures |degree| == |removed| == |g.adj|
  {
  }

  lemma NotOwnNeighbour(g: Graph, t: nat)
    requires ValidGraph(g) && t < |g.adj|
    ensures t !in g.adj[t]
  {
    assert !EdgeOk(g, t, t);
  }

  lemma DegreeMeans(g: Graph, removed: seq<bool>, degree: seq<nat>, t: nat)
    requires DegreesOk(g, removed, degree) && t < |removed| && !removed[t]
    ensures degree[t] == Crowd(g, t, Active(removed)) && t in Active(removed)
  {
  }

  lemma NoneActive(removed: seq<bool>)
    requires !exists t :: 0 <= t < |removed| && !removed[t]
    ensures Active(removed) == {}
  {
  }

  // ----- select -----

  /** What colouring weighs: reference costs, the frequency of crossed calls, move
      partners, the callee-first orders, and whether calls preserve no register. */
  datatype Weights = Weights(cost: seq<real>, crossFreq: seq<real>, partners: seq<seq<nat>>,
                             calleeFirst: seq<seq<nat>>, calleeSaved: set<nat>, managed: bool)

  ghost predicate WeightsFit(g: Graph, w: Weights) {
    && |w.cost| == |w.crossFreq| == |w.partners| == |w.calleeFirst| == |g.node| == |g.pool|
    && (forall t, p :: 0 <= t < |w.partners| && p in w.partners[t] ==> p < |g.node|)
    && (forall t, r :: 0 <= t < |g.pool| ==> (r in w.calleeFirst[t] <==> r in g.pool[t]))
  }

  predicate PrefersCallee(w: Weights, t: nat)
    requires t < |w.crossFreq|
  {
    !w.managed && w.crossFreq[t] > 0.0 && w.crossFreq[t] * 2.0 >= 2.0
  }

  /** Saving and restoring t around the calls it crosses costs as much as spilling it. */
  predicate CheaperSpilled(w: Weights, t: nat)
    requires t < |w.crossFreq| && t < |w.cost|
  {
    PrefersCallee(w, t) && w.crossFreq[t] * 2.0 >= w.cost[t]
  }

  /** A register that may be taken. */
  predicate Usable(r: nat, used: set<nat>, forb: set<nat>, only: Option<set<nat>>) {
    r !in used && r !in forb && (only.None? || r in only.value)
  }

  method FirstUsable(pool: seq<nat>, used: set<nat>, forb: set<nat>, only: Option<set<nat>>) returns (r: Option<nat>)
    ensures r.Some? ==> exists i :: 0 <= i < |pool| && pool[i] == r.value && Usable(pool[i], used, forb, only)
                                    && forall k :: 0 <= k < i ==> !Usable(pool[k], used, forb, only)
    ensures r.None? ==> forall x :: x in pool ==> !Usable(x, used, forb, only)
  {
    for i := 0 to |pool|
      invariant forall k :: 0 <= k < i ==> !Usable(pool[k], used, forb, only)
    {
      if Usable(pool[i], used, forb, only) {
        return Some(pool[i]);
      }
    }
    r := None;
  }

  method RegistersOf(s: set<nat>, reg: seq<Option<nat>>) returns (used: set<nat>)
    requires forall w :: w in s ==> w < |reg|
    ensures forall r :: r in used <==> exists w :: w in s && reg[w] == Some(r)
  {
    used := {};
    var rest := s;
    while rest != {}
      invariant rest <= s
      invariant forall r :: r in used <==> exists w :: w in s - rest && reg[w] == Some(r)
      decreases rest
    {
      var w :| w in rest;
      if reg[w].Some? {
        used := used + {reg[w].value};
      }
      rest := rest - {w};
    }
  }

  /** A register a move partner of t holds, one its calls preserve if t wants such. */
  ghost predicate Partnered(g: Graph, w: Weights, reg: seq<Option<nat>>, t: nat, r: nat) {
    && t < |w.partners| && t < |w.crossFreq|
    && (exists i :: 0 <= i < |w.partners[t]| && w.partners[t][i] < |reg| && reg[w.partners[t][i]] == Some(r))
    && (PrefersCallee(w, t) ==> r in w.calleeSaved)
  }

  ghost predicate Open(g: Graph, reg: seq<Option<nat>>, t: nat, r: nat) {
    && t < |g.adj| && t < |g.forb| && r !in g.forb[t]
    && forall n :: n in g.adj[t] && n < |reg| ==> reg[n] != Some(r)
  }

  /** r is the first usable register of the order that a partner holds, or, when no
      partner holds a usable one, the first usable register. */
  ghost predicate FirstOf(order: seq<nat>, g: Graph, w: Weights, reg: seq<Option<nat>>, t: nat, r: nat) {
    exists i :: 0 <= i < |order| && order[i] == r && Open(g, reg, t, r) &&
      if Partnered(g, w, reg, t, r) then forall k :: 0 <= k < i ==> !(Open(g, reg, t, order[k]) && Partnered(g, w, reg, t, order[k]))
      else (forall k :: 0 <= k < |order| ==> !(Open(g, reg, t, order[k]) && Partnered(g, w, reg, t, order[k]))) &&
           forall k :: 0 <= k < i ==> !Open(g, reg, t, order[k])
  }

  /** The register for t: a move partner's if usable, else the first usable; none when
      the only choice is not worth its saves. */
  method Pick(g: Graph, w: Weights, reg: seq<Option<nat>>, t: nat) returns (picked: Option<nat>)
    requires ValidGraph(g) && WeightsFit(g, w) && |reg| == |g.node| && t < |g.node|
    ensures picked.Some? ==> picked.value in g.pool[t] && picked.value !in g.forb[t]
    ensures picked.Some? ==> forall n :: n in g.adj[t] && n < |reg| ==> reg[n] != picked
    ensures var hot := !w.managed && w.crossFreq[t] > 0.0 && w.crossFreq[t] * 2.0 >= 2.0;
            var order := if hot then w.calleeFirst[t] else g.pool[t];
            && (picked.Some? ==> FirstOf(order, g, w, reg, t, picked.value))
            && (picked.Some? && hot && picked.value !in w.calleeSaved ==> w.crossFreq[t] * 2.0 < w.cost[t])
            && (picked.None? ==> (forall r :: r in Available(g, t) ==> exists n :: n in g.adj[t] && n < |reg| && reg[n] == Some(r)) ||
                                 (hot && w.crossFreq[t] * 2.0 >= w.cost[t] && exists r :: r !in w.calleeSaved && FirstOf(order, g, w, reg, t, r)))
    ensures picked.None? ==> CheaperSpilled(w, t) ||
                             forall r :: r in Available(g, t) ==> exists n :: n in g.adj[t] && n < |reg| && reg[n] == Some(r)
  {
    hide ValidGraph;
    GraphSizes(g, t);
    var used := RegistersOf(g.adj[t], reg);
    var preferCallee := PrefersCallee(w, t);
    var pool := if preferCallee then w.calleeFirst[t] else g.pool[t];
    var prefer: set<nat> := {};
    PartnersInRange(g, w, t);
    for i := 0 to |w.partners[t]|
      invariant forall x :: 0 <= x < |w.partners[t]| ==> w.partners[t][x] < |reg|
      invariant forall r :: r in prefer <==> (exists x :: 0 <= x < i && reg[w.partners[t][x]] == Some(r)) && (preferCallee ==> r in w.calleeSaved)
    {
      var r := reg[w.partners[t][i]];
      if r.Some? && !(preferCallee && r.value !in w.calleeSaved) {
        prefer := prefer + {r.value};
      }
    }
    forall r
      ensures r in prefer <==> Partnered(g, w, reg, t, r)
      ensures Usable(r, used, g.forb[t], None) <==> Open(g, reg, t, r)
      ensures Usable(r, used, g.forb[t], Some(prefer)) <==> Open(g, reg, t, r) && Partnered(g, w, reg, t, r)
    {
      PartnersInRange(g, w, t);
    }
    picked := FirstUsable(pool, used, g.forb[t], Some(prefer));
    if picked.None? {
      picked := FirstUsable(pool, used, g.forb[t], None);
    }
    assert picked.Some? ==> FirstOf(pool, g, w, reg, t, picked.value) by {
      hide Usable, Open, Partnered;
    }
    if picked.Some? && preferCallee && picked.value !in w.calleeSaved && w.crossFreq[t] * 2.0 >= w.cost[t] {
      picked := None;
    }
  }

  lemma PartnersInRange(g: Graph, w: Weights, t: nat)
    requires WeightsFit(g, w) && t < |g.node|
    ensures t < |w.partners| && forall i :: 0 <= i < |w.partners[t]| ==> w.partners[t][i] < |g.node|
  {
    forall i | 0 <= i < |w.partners[t]|
      ensures w.partners[t][i] < |g.node|
    {
      assert w.partners[t][i] in w.partners[t];
    }
  }

  lemma GraphSizes(g: Graph, t: nat)
    requires ValidGraph(g) && t < |g.node|
    ensures |g.node| == |g.adj| == |g.forb| == |g.pool|
    ensures forall n :: n in g.adj[t] ==> n < |g.node|
  {
    NeighboursInRange(g, t);
  }

  /** As many colours cannot be held by fewer neighbours. */
  lemma {:induction false} HeldByDistinct(colours: set<nat>, holders: set<nat>, reg: seq<Option<nat>>)
    requires forall r :: r in colours ==> exists n :: n in holders && n < |reg| && reg[n] == Some(r)
    ensures |colours| <= |holders|
    decreases |colours|
  {
    if colours != {} {
      var r :| r in colours;
      var n :| n in holders && n < |reg| && reg[n] == Some(r);
      forall x | x in colours - {r}
        ensures exists m :: m in holders - {n} && m < |reg| && reg[m] == Some(x)
      {
        var m :| m in holders && m < |reg| && reg[m] == Some(x);
        assert m in holders - {n};
      }
      HeldByDistinct(colours - {r}, holders - {n}, reg);
    }
  }

  /** A node removed with fewer remaining neighbours than colours has a colour left
      when it is popped, whatever the others took. */
  lemma SureHasColour(g: Graph, reg: seq<Option<nat>>, t: nat, later: set<nat>)
    requires ValidGraph(g) && t < |g.node| && |reg| == |g.node|
    requires Crowd(g, t, later) < |Available(g, t)|
    requires forall n :: n in g.adj[t] && n < |reg| && reg[n].Some? ==> n in later || reg[n].value in g.forb[t]
    ensures exists r :: r in Available(g, t) && forall n :: n in g.adj[t] && n < |reg| ==> reg[n] != Some(r)
  {
    if forall r :: r in Available(g, t) ==> exists n :: n in g.adj[t] && n < |reg| && reg[n] == Some(r) {
      forall r | r in Available(g, t)
        ensures exists n :: n in g.adj[t] * later && n < |reg| && reg[n] == Some(r)
      {
        var n :| n in g.adj[t] && n < |reg| && reg[n] == Some(r);
        assert n in g.adj[t] * later;
      }
      HeldByDistinct(Available(g, t), g.adj[t] * later, reg);
    }
  }

  /** Colours given before the stack is popped are forbidden to their neighbours on it. */
  ghost predicate PreForbidden(g: Graph, reg: seq<Option<nat>>, stack: seq<nat>) {
    && |reg| == |g.node| == |g.adj| == |g.forb|
    && forall t, n :: t in stack && t < |g.adj| && n in g.adj[t] && n < |reg| && n !in stack && reg[n].Some? ==> reg[n].value in g.forb[t]
  }

  /** A finished node is in a register or in a slot, and a certain one is spilled only
      when that is cheaper. */
  ghost predicate Placed(w: Weights, a: Alloc, t: nat, sure: set<nat>) {
    && Housed(a, t)
    && (t in sure && a.reg[t].None? ==> t < |w.crossFreq| && t < |w.cost| && CheaperSpilled(w, t))
  }

  ghost predicate Unplaced(a: Alloc, t: nat) {
    t < |a.reg| && t < |a.slot| && a.reg[t].None? && a.slot[t].None?
  }

  /** Where popping has got to: entries from i on are placed, the others untouched. */
  ghost predicate SelectInv(g: Graph, w: Weights, a0: Alloc, a: Alloc, stack: seq<nat>, sure: set<nat>, i: nat) {
    && i <= |stack| && Proper(g, a.reg) && SlotsOk(a) && |a.reg| == |a0.reg| == |a0.slot| && a.width == a0.width
    && (forall k :: i <= k < |stack| ==> Placed(w, a, stack[k], sure))
    && (forall k :: 0 <= k < i ==> Unplaced(a, stack[k]))
    && (forall t :: 0 <= t < |a.reg| && t !in stack ==> a.reg[t] == a0.reg[t] && a.slot[t] == a0.slot[t])
  }

  lemma TakeKeepsProper(g: Graph, reg: seq<Option<nat>>, t: nat, r: nat)
    requires Proper(g, reg) && t < |reg| && r in g.pool[t] && r !in g.forb[t]
    requires forall n :: n in g.adj[t] && n < |reg| ==> reg[n] != Some(r)
    ensures Proper(g, reg[t := Some(r)])
  {
    var reg' := reg[t := Some(r)];
    forall x | 0 <= x < |reg'|
      ensures RegOk(g, reg', x)
    {
      assert RegOk(g, reg, x);
    }
    forall a: nat, b: nat | a < |reg'| && b in g.adj[a]
      ensures Differ(reg', a, b)
    {
      assert EdgeOk(g, a, b) && Differ(reg, a, b);
    }
  }

  lemma DropKeepsProper(g: Graph, reg: seq<Option<nat>>, t: nat)
    requires Proper(g, reg) && t < |reg|
    ensures Proper(g, reg[t := None])
  {
    var reg' := reg[t := None];
    forall x | 0 <= x < |reg'|
      ensures RegOk(g, reg', x)
    {
      assert RegOk(g, reg, x);
    }
    forall a: nat, b: nat | a < |reg'| && b in g.adj[a]
      ensures Differ(reg', a, b)
    {
      assert EdgeOk(g, a, b) && Differ(reg, a, b);
    }
  }

  /** Popping entry i: the coloured neighbours are popped ones or forbidden anyway. */
  lemma ColouredNeighbours(g: Graph, w: Weights, a0: Alloc, a: Alloc, stack: seq<nat>, sure: set<nat>, i: nat, n: nat)
    requires SelectInv(g, w, a0, a, stack, sure, i + 1) && i < |stack| && stack[i] < |g.adj| && PreForbidden(g, a0.reg, stack)
    requires n in g.adj[stack[i]] && n < |a.reg| && a.reg[n].Some?
    ensures n in Members(stack[i + 1..]) || a.reg[n].value in g.forb[stack[i]]
  {
    assert stack[i] in stack;
    if n in stack {
      var k :| 0 <= k < |stack| && stack[k] == n;
      assert k > i;
      assert n == stack[i + 1..][k - i - 1];
    }
  }

  lemma PopPlaces(g: Graph, w: Weights, a0: Alloc, a: Alloc, stack: seq<nat>, sure: set<nat>, i: nat, picked: Option<nat>)
    requires SelectInv(g, w, a0, a, stack, sure, i + 1) && i < |stack| && Distinct(stack)
    requires stack[i] < |a.reg| && |a.reg| == |g.pool|
    requires picked.Some? ==> picked.value in g.pool[stack[i]] && picked.value !in g.forb[stack[i]]
    requires picked.Some? ==> forall n :: n in g.adj[stack[i]] && n < |a.reg| ==> a.reg[n] != picked
    requires picked.None? && stack[i] in sure ==> stack[i] < |w.crossFreq| && stack[i] < |w.cost| && CheaperSpilled(w, stack[i])
    ensures |a.reg| == |a.slot| == |a.width| && WidthsOk(a.width)
    ensures SelectInv(g, w, a0, if picked.Some? then a.(reg := a.reg[stack[i] := picked]) else Spill(a, stack[i]), stack, sure, i)
  {
    hide CheaperSpilled, ValidGraph, SlotAt, SlotsDisjoint;
    var t := stack[i];
    var u := if picked.Some? then a.(reg := a.reg[t := picked]) else Spill(a, t);
    assert Unplaced(a, t);
    if picked.Some? {
      TakeKeepsProper(g, a.reg, t, picked.value);
      RegKeepsSlots(a, a.reg[t := picked]);
    } else {
      DropKeepsProper(g, a.reg, t);
      SpillKeeps(a, t);
    }
    forall k | i <= k < |stack|
      ensures Placed(w, u, stack[k], sure)
    {
      if k > i {
        assert Placed(w, a, stack[k], sure);
      }
    }
    forall k | 0 <= k < i
      ensures Unplaced(u, stack[k])
    {
      assert Unplaced(a, stack[k]);
    }
    assert t in stack;
  }

  ghost predicate AvailOk(g: Graph, avail: seq<nat>)
    requires ValidGraph(g)
  {
    |avail| == |g.node| && forall t :: 0 <= t < |avail| && g.node[t] ==> avail[t] == |Available(g, t)|
  }

  /** Select: pops the stack, giving each node a usable register or a slot. */
  method Select(g: Graph, w: Weights, a0: Alloc, stack: seq<nat>, ghost avail: seq<nat>, ghost start: set<nat>, ghost sure: set<nat>)
    returns (a: Alloc)
    requires ValidGraph(g) && WeightsFit(g, w) && AvailOk(g, avail)
    requires Stacked(g, start, stack, {}, avail, sure) && (forall t :: t in stack ==> t < |g.node| && g.node[t])
    requires PreForbidden(g, a0.reg, stack) && SelectInv(g, w, a0, a0, stack, sure, |stack|)
    ensures SelectInv(g, w, a0, a, stack, sure, 0)
  {
    hide ValidGraph, WeightsFit, AvailOk, SelectInv, PreForbidden;
    a := a0;
    var i := |stack|;
    while i > 0
      invariant 0 <= i <= |stack| && SelectInv(g, w, a0, a, stack, sure, i)
    {
      i := i - 1;
      var t := stack[i];
      assert t in stack;
      SelectSizes(g, w, a0, a, stack, sure, i + 1);
      var picked := Pick(g, w, a.reg, t);
      if t in sure && picked.None? {
        SureIsCheaper(g, w, a0, a, stack, avail, start, sure, i);
      }
      WeightSizes(g, w);
      PopPlaces(g, w, a0, a, stack, sure, i, picked);
      if picked.Some? {
        a := a.(reg := a.reg[t := picked]);
      } else {
        a := Spill(a, t);
      }
    }
  }

  lemma SelectSizes(g: Graph, w: Weights, a0: Alloc, a: Alloc, stack: seq<nat>, sure: set<nat>, i: nat)
    requires SelectInv(g, w, a0, a, stack, sure, i)
    ensures |a.reg| == |a.slot| == |a.width| == |g.node| == |g.adj| == |g.pool| && WidthsOk(a.width)
  {
  }

  lemma WeightSizes(g: Graph, w: Weights)
    requires WeightsFit(g, w)
    ensures |w.cost| == |w.crossFreq| == |g.node|
  {
  }

  /** A certain node finds no register only when spilling it is cheaper. */
  lemma SureIsCheaper(g: Graph, w: Weights, a0: Alloc, a: Alloc, stack: seq<nat>, avail: seq<nat>, start: set<nat>, sure: set<nat>, i: nat)
    requires ValidGraph(g) && WeightsFit(g, w) && AvailOk(g, avail) && i < |stack| && stack[i] in sure
    requires Stacked(g, start, stack, {}, avail, sure) && stack[i] < |g.node| && g.node[stack[i]]
    requires PreForbidden(g, a0.reg, stack) && SelectInv(g, w, a0, a, stack, sure, i + 1)
    requires CheaperSpilled(w, stack[i]) || forall r :: r in Available(g, stack[i]) ==>
               exists n :: n in g.adj[stack[i]] && n < |a.reg| && a.reg[n] == Some(r)
    ensures CheaperSpilled(w, stack[i])
  {
    hide ValidGraph, WeightsFit, SelectInv, CheaperSpilled, Crowd;
    var t := stack[i];
    var later := Members(stack[i + 1..]);
    assert SureAt(g, stack, i, {}, avail, sure);
    assert Later(stack, i, {}) == later;
    SelectSizes(g, w, a0, a, stack, sure, i + 1);
    forall n | n in g.adj[t] && n < |a.reg| && a.reg[n].Some?
      ensures n in later || a.reg[n].value in g.forb[t]
    {
      ColouredNeighbours(g, w, a0, a, stack, sure, i, n);
    }
    SureHasColour(g, a.reg, t, later);
  }

  /** The finished allocation: pinned temporaries keep their register, every other one
      has a usable register or a private slot, or is recomputed at each use, and
      `mustSpill` ones have no register. */
  ghost predicate AllocOk(g: Graph, fixed: seq<Option<nat>>, mustSpill: set<nat>, a: Alloc) {
    && Proper(g, a.reg) && SlotsOk(a) && |fixed| == |a.reg| == |a.slot|
    && (forall t :: 0 <= t < |a.reg| ==> if g.node[t] then Housed(a, t) else a.reg[t] == fixed[t] && a.slot[t].None?)
    && (forall t :: t in mustSpill && t < |a.reg| && g.node[t] ==> OnStack(a, t))
  }

  /** Before simplifying: nodes that must be spilled are, pre-assigned ones hold a
      register, the rest are untouched and in the graph. */
  ghost predicate Started(g: Graph, fixed: seq<Option<nat>>, mustSpill: set<nat>, a: Alloc, removed: seq<bool>) {
    && Proper(g, a.reg) && SlotsOk(a) && |fixed| == |a.reg| == |a.slot| == |removed|
    && (forall t :: 0 <= t < |removed| && !g.node[t] ==> removed[t] && a.reg[t] == fixed[t] && a.slot[t].None?)
    && (forall t :: 0 <= t < |removed| && !removed[t] ==> Unplaced(a, t) && t !in mustSpill)
    && (forall t :: 0 <= t < |removed| && removed[t] && g.node[t] ==> Housed(a, t))
    && (forall t :: 0 <= t < |removed| && removed[t] && g.node[t] && t in mustSpill ==> OnStack(a, t))
    && (forall t, n :: 0 <= t < |removed| && !removed[t] && n in g.adj[t] && n < |a.reg| && a.reg[n].Some? ==> a.reg[n].value in g.forb[t])
  }

  lemma FinishedAlloc(g: Graph, w: Weights, fixed: seq<Option<nat>>, mustSpill: set<nat>, a0: Alloc, a: Alloc, removed: seq<bool>,
                      stack: seq<nat>, sure: set<nat>)
    requires Started(g, fixed, mustSpill, a0, removed) && SelectInv(g, w, a0, a, stack, sure, 0)
    requires Members(stack) == Active(removed)
    ensures AllocOk(g, fixed, mustSpill, a)
  {
    forall t: nat | t < |a.reg|
      ensures if g.node[t] then Housed(a, t) else a.reg[t] == fixed[t] && a.slot[t].None?
      ensures t in mustSpill && g.node[t] ==> OnStack(a, t)
    {
      if t in stack {
        var k :| 0 <= k < |stack| && stack[k] == t;
        assert Placed(w, a, stack[k], sure);
        assert t in Active(removed);
      } else {
        assert t !in Active(removed);
      }
    }
  }

  method Avails(g: Graph) returns (avail: seq<nat>)
    requires ValidGraph(g)
    ensures AvailOk(g, avail)
  {
    avail := [];
    for t := 0 to |g.node|
      invariant |avail| == t
      invariant forall u :: 0 <= u < t && g.node[u] ==> avail[u] == |Available(g, u)|
    {
      var k := 0;
      if g.node[t] {
        k := CountAvailable(g.pool[t], g.forb[t]);
        assert Available(g, t) == set r | r in g.pool[t] && r !in g.forb[t];
      }
      avail := avail + [k];
    }
  }

  /** Simplify and select over what is left in the graph. */
  method Colour(g: Graph, w: Weights, ghost fixed: seq<Option<nat>>, ghost mustSpill: set<nat>, a0: Alloc, removed: seq<bool>,
                before: (nat, nat, nat, nat) -> bool, cheaper: (nat, nat, nat, nat) -> bool)
    returns (a: Alloc, ghost stack: seq<nat>)
    requires WeightsFit(g, w) && Started(g, fixed, mustSpill, a0, removed)
    ensures AllocOk(g, fixed, mustSpill, a) && a.width == a0.width
    ensures Members(stack) == Active(removed) && Guaranteed(g, w, a, stack)
    ensures |a.reg| == |a0.reg| && forall t :: 0 <= t < |a.reg| && removed[t] ==> a.reg[t] == a0.reg[t]
  {
    hide WeightsFit, AvailOk;
    var avail := Avails(g);
    AvailSize(g, avail);
    var order;
    ghost var sure;
    order, sure := Simplify(g, removed, avail, before, cheaper);
    stack := order;
    ReadyToSelect(g, w, fixed, mustSpill, a0, removed, stack, sure);
    a := Select(g, w, a0, order, avail, Active(removed), sure);
    FinishedAlloc(g, w, fixed, mustSpill, a0, a, removed, stack, sure);
    SureColoured(g, w, a0, a, stack, avail, Active(removed), sure);
  }

  /** The colouring guarantee: a node that, when it was removed, had fewer neighbours
      left than available colours is in a register, unless spilling it is cheaper
      than saving it around its calls. */
  ghost predicate Guaranteed(g: Graph, w: Weights, a: Alloc, stack: seq<nat>) {
    Distinct(stack) && forall i :: 0 <= i < |stack| ==> GuaranteedAt(g, w, a, stack, i)
  }

  ghost predicate GuaranteedAt(g: Graph, w: Weights, a: Alloc, stack: seq<nat>, i: nat)
    requires i < |stack|
  {
    var t := stack[i];
    && ValidGraph(g) && t < |g.node| && t < |a.reg| && t < |w.crossFreq| && t < |w.cost|
    && (Crowd(g, t, Members(stack[i + 1..])) < |Available(g, t)| ==> a.reg[t].Some? || CheaperSpilled(w, t))
  }

  lemma SureColoured(g: Graph, w: Weights, a0: Alloc, a: Alloc, stack: seq<nat>, avail: seq<nat>, start: set<nat>, sure: set<nat>)
    requires ValidGraph(g) && AvailOk(g, avail) && WeightsFit(g, w) && (forall t :: t in stack ==> t < |g.node| && g.node[t])
    requires Stacked(g, start, stack, {}, avail, sure) && SelectInv(g, w, a0, a, stack, sure, 0)
    ensures Guaranteed(g, w, a, stack)
  {
    hide Crowd, CheaperSpilled, Proper, SlotsOk;
    forall i | 0 <= i < |stack|
      ensures GuaranteedAt(g, w, a, stack, i)
    {
      assert stack[i] in stack && SureAt(g, stack, i, {}, avail, sure) && Placed(w, a, stack[i], sure);
      assert Later(stack, i, {}) == Members(stack[i + 1..]);
    }
  }

  lemma AvailSize(g: Graph, avail: seq<nat>)
    requires ValidGraph(g) && AvailOk(g, avail)
    ensures |avail| == |g.node|
  {
  }

  lemma ReadyToSelect(g: Graph, w: Weights, fixed: seq<Option<nat>>, mustSpill: set<nat>, a0: Alloc, removed: seq<bool>,
                      stack: seq<nat>, sure: set<nat>)
    requires Started(g, fixed, mustSpill, a0, removed) && Members(stack) == Active(removed)
    ensures PreForbidden(g, a0.reg, stack) && SelectInv(g, w, a0, a0, stack, sure, |stack|)
    ensures forall t :: t in stack ==> t < |g.node| && g.node[t]
  {
    hide SlotsOk;
    forall t | t in stack
      ensures t < |removed| && !removed[t]
    {
      assert t in Members(stack);
    }
    forall k | 0 <= k < |stack|
      ensures Unplaced(a0, stack[k])
    {
      assert stack[k] in stack;
    }
  }

  // ----- the two back ends -----

  /** Takes the temporaries that must live on the stack out of the graph. */
  method SpillFirst(g: Graph, fixed: seq<Option<nat>>, mustSpill: set<nat>, width: seq<nat>) returns (a: Alloc, removed: seq<bool>)
    requires ValidGraph(g) && |fixed| == |g.node| == |width| && WidthsOk(width) && forall t :: 0 <= t < |fixed| && g.node[t] ==> fixed[t].None?
    ensures Started(g, fixed, mustSpill, a, removed) && a.width == width
    ensures forall t :: 0 <= t < |removed| && g.node[t] ==> a.reg[t].None? && (removed[t] <==> t in mustSpill)
  {
    a := Alloc(fixed, seq(|fixed|, _ => None), width, 0);
    removed := seq(|fixed|, t requires 0 <= t < |fixed| => !g.node[t]);
    EmptySlots(a);
    UncolouredIsProper(g, a.reg);
    hide SlotsOk, Proper;
    for t := 0 to |fixed|
      invariant Proper(g, a.reg) && SlotsOk(a) && |a.reg| == |a.slot| == |removed| == |fixed| && a.width == width
      invariant forall u :: 0 <= u < t ==> FirstAt(g, fixed, mustSpill, a, removed, u, true)
      invariant forall u :: t <= u < |fixed| ==> FirstAt(g, fixed, mustSpill, a, removed, u, false)
    {
      ghost var was, gone := a, removed;
      assert FirstAt(g, fixed, mustSpill, a, removed, t, false);
      if g.node[t] && t in mustSpill {
        SpillKeeps(a, t);
        assert a.reg[t := None] == a.reg;
        a := Spill(a, t);
        removed := removed[t := true];
      }
      forall u, seen | 0 <= u < |fixed| && u != t && FirstAt(g, fixed, mustSpill, was, gone, u, seen)
        ensures FirstAt(g, fixed, mustSpill, a, removed, u, seen)
      {
      }
    }
    StartsOff(g, fixed, mustSpill, a, removed);
  }

  /** A temporary before (`seen` false) or after its turn to be spilled outright. */
  ghost predicate FirstAt(g: Graph, fixed: seq<Option<nat>>, mustSpill: set<nat>, a: Alloc, removed: seq<bool>, u: nat, seen: bool) {
    && u < |a.reg| && u < |a.slot| && u < |removed| && u < |fixed| && u < |g.node|
    && if !g.node[u] then removed[u] && a.reg[u] == fixed[u] && a.slot[u].None?
       else a.reg[u].None? && (removed[u] <==> seen && u in mustSpill) && if removed[u] then Housed(a, u) else a.slot[u].None?
  }

  lemma StartsOff(g: Graph, fixed: seq<Option<nat>>, mustSpill: set<nat>, a: Alloc, removed: seq<bool>)
    requires Proper(g, a.reg) && SlotsOk(a) && |fixed| == |a.reg| == |removed|
    requires forall u :: 0 <= u < |fixed| ==> FirstAt(g, fixed, mustSpill, a, removed, u, true)
    ensures Started(g, fixed, mustSpill, a, removed)
    ensures forall t :: 0 <= t < |removed| && g.node[t] ==> a.reg[t].None? && (removed[t] <==> t in mustSpill)
  {
    hide ValidGraph, SlotAt, SlotsDisjoint, Housed;
    ProperValid(g, a.reg);
    forall t | 0 <= t < |fixed|
      ensures g.node[t] ==> a.reg[t].None?
      ensures !g.node[t] ==> removed[t] && a.reg[t] == fixed[t] && a.slot[t].None?
      ensures g.node[t] ==> (removed[t] <==> t in mustSpill) && if removed[t] then Housed(a, t) else Unplaced(a, t)
    {
      assert FirstAt(g, fixed, mustSpill, a, removed, t, true);
    }
    NodesUncoloured(g, a.reg);
    forall t | 0 <= t < |removed| && removed[t] && g.node[t]
      ensures OnStack(a, t)
    {
    }
  }

  lemma ProperValid(g: Graph, reg: seq<Option<nat>>)
    requires Proper(g, reg)
    ensures ValidGraph(g) && |reg| == |g.node|
  {
  }

  lemma EmptySlots(a: Alloc)
    requires |a.slot| == |a.reg| == |a.width| && WidthsOk(a.width) && a.spillBytes == 0
    requires forall t :: 0 <= t < |a.slot| ==> a.slot[t].None?
    ensures SlotsOk(a)
  {
  }

  lemma UncolouredIsProper(g: Graph, reg: seq<Option<nat>>)
    requires ValidGraph(g) && |reg| == |g.node| && forall t :: 0 <= t < |reg| && g.node[t] ==> reg[t].None?
    ensures Proper(g, reg)
  {
    forall a: nat, b: nat | a < |reg| && b in g.adj[a]
      ensures Differ(reg, a, b)
    {
      assert EdgeOk(g, a, b);
    }
  }

  lemma NodesUncoloured(g: Graph, reg: seq<Option<nat>>)
    requires ValidGraph(g) && |reg| == |g.node| && forall t :: 0 <= t < |reg| && g.node[t] ==> reg[t].None?
    ensures forall t, n :: 0 <= t < |reg| && n in g.adj[t] && n < |reg| ==> reg[n].None?
  {
    forall t, n | 0 <= t < |reg| && n in g.adj[t] && n < |reg|
      ensures reg[n].None?
    {
      assert EdgeOk(g, t, n);
    }
  }

  /** The amd64 assignment: managed references held across a safepoint go to the stack,
      then colouring, lowest degree first, cheapest spill per neighbour freed. */
  method AssignAmd64(g: Graph, w: Weights, fixed: seq<Option<nat>>, gc: set<nat>, width: seq<nat>) returns (a: Alloc, ghost stack: seq<nat>)
    requires ValidGraph(g) && WeightsFit(g, w) && |width| == |g.node| && WidthsOk(width)
    requires |fixed| == |g.node| && forall t :: 0 <= t < |fixed| && g.node[t] ==> fixed[t].None?
    ensures AllocOk(g, fixed, gc, a) && a.width == width && Guaranteed(g, w, a, stack)
    ensures forall t: nat :: t in stack <==> t < |g.node| && g.node[t] && t !in gc
  {
    var removed;
    a, removed := SpillFirst(g, fixed, gc, width);
    var ratio := (t: nat, d: nat) => if t < |w.cost| then w.cost[t] / (if d < 1 then 1.0 else d as real) else 0.0;
    a, stack := Colour(g, w, fixed, gc, a, removed,
                      (t, dt, low, dl) => dt < dl, (t: nat, dt: nat, c: nat, dc: nat) => ratio(t, dt) < ratio(c, dc));
  }

  /** One pre-assignment: its register becomes forbidden to every neighbour still in
      the graph. */
  function ForbidNeighbours(g: Graph, c: nat, r: nat, removed: seq<bool>): (h: Graph)
    requires ValidGraph(g) && |removed| == |g.node| && c < |g.node|
    ensures |h.forb| == |g.forb| && h == g.(forb := h.forb)
    ensures forall t: nat :: t < |g.forb| ==> h.forb[t] == if t in g.adj[c] && !removed[t] then g.forb[t] + {r} else g.forb[t]
  {
    g.(forb := seq(|g.forb|, t requires 0 <= t < |g.forb| =>
      if t in g.adj[c] && !removed[t] then g.forb[t] + {r} else g.forb[t]))
  }

  /** The forbidden sets only grow from g0 to g; the rest is the same graph. */
  ghost predicate Tighter(g0: Graph, g: Graph) {
    && g == g0.(forb := g.forb) && |g.forb| == |g0.forb|
    && forall t :: 0 <= t < |g.forb| ==> g0.forb[t] <= g.forb[t]
  }

  lemma TighterAlloc(g0: Graph, g: Graph, fixed: seq<Option<nat>>, mustSpill: set<nat>, a: Alloc)
    requires Tighter(g0, g) && ValidGraph(g0) && AllocOk(g, fixed, mustSpill, a)
    ensures AllocOk(g0, fixed, mustSpill, a)
  {
    forall t | 0 <= t < |a.reg|
      ensures RegOk(g0, a.reg, t)
    {
      assert RegOk(g, a.reg, t);
    }
  }

  lemma TighterValid(g0: Graph, g: Graph)
    requires Tighter(g0, g) && ValidGraph(g0)
    ensures ValidGraph(g)
  {
    forall a: nat, b: nat | a < |g.adj| && b in g.adj[a]
      ensures EdgeOk(g, a, b)
    {
      assert EdgeOk(g0, a, b);
    }
  }

  lemma PreassignKeeps(g: Graph, fixed: seq<Option<nat>>, mustSpill: set<nat>, a: Alloc, removed: seq<bool>, c: nat, r: nat)
    requires Started(g, fixed, mustSpill, a, removed) && c < |removed| && !removed[c]
    requires r in g.pool[c] && r !in g.forb[c]
    ensures Started(ForbidNeighbours(g, c, r, removed[c := true]), fixed, mustSpill, a.(reg := a.reg[c := Some(r)]), removed[c := true])
  {
    var removed' := removed[c := true];
    var h := ForbidNeighbours(g, c, r, removed');
    var a' := a.(reg := a.reg[c := Some(r)]);
    TighterValid(g, h);
    PreassignProper(g, h, a.reg, removed, c, r);
    RegKeepsSlots(a, a.reg[c := Some(r)]);
    forall t, n | 0 <= t < |removed'| && !removed'[t] && n in h.adj[t] && n < |a'.reg| && a'.reg[n].Some?
      ensures a'.reg[n].value in h.forb[t]
    {
      if n == c {
        assert EdgeOk(g, t, c);
      }
    }
    assert Unplaced(a, c);
    forall t | 0 <= t < |removed'| && !removed'[t]
      ensures Unplaced(a', t) && t !in mustSpill
    {
      assert Unplaced(a, t);
    }
  }

  lemma PreassignProper(g: Graph, h: Graph, reg: seq<Option<nat>>, removed: seq<bool>, c: nat, r: nat)
    requires Proper(g, reg) && |removed| == |reg| && c < |removed| && r in g.pool[c] && r !in g.forb[c]
    requires h == ForbidNeighbours(g, c, r, removed[c := true]) && ValidGraph(h)
    requires forall t :: 0 <= t < |removed| && !removed[t] ==> reg[t].None?
    requires forall n :: n in g.adj[c] && n < |reg| && reg[n].Some? ==> reg[n].value in g.forb[c]
    ensures Proper(h, reg[c := Some(r)])
  {
    TakeKeepsProper(g, reg, c, r);
    var reg' := reg[c := Some(r)];
    NotOwnNeighbour(g, c);
    forall t | 0 <= t < |reg'|
      ensures RegOk(h, reg', t)
    {
      assert RegOk(g, reg', t);
    }
  }

  /** The arm64 assignment: besides managed references, values crossing calls go to the
      stack in a managed frame; then, in the order given, call-crossing candidates
      greedily take a callee-saved register, which becomes forbidden to their
      neighbours; the rest is coloured. */
  method AssignArm64(g0: Graph, w: Weights, fixed: seq<Option<nat>>, mustSpill: set<nat>, width: seq<nat>,
                     cands: seq<nat>, before: (nat, nat, nat, nat) -> bool, cheaper: (nat, nat, nat, nat) -> bool)
    returns (a: Alloc, ghost stack: seq<nat>, ghost g: Graph)
    requires ValidGraph(g0) && WeightsFit(g0, w) && forall c :: c in cands ==> c < |g0.node|
    requires |width| == |g0.node| && WidthsOk(width)
    requires |fixed| == |g0.node| && forall t :: 0 <= t < |fixed| && g0.node[t] ==> fixed[t].None?
    ensures AllocOk(g0, fixed, mustSpill, a) && a.width == width
    ensures Tighter(g0, g) && Guaranteed(g, w, a, stack)
    ensures forall t :: t in stack && t < |g.forb| ==> TakenOnly(g0, g, a.reg, t)
  {
    hide Started, AllocOk, ValidGraph, Guaranteed;
    var removed;
    a, removed := SpillFirst(g0, fixed, mustSpill, width);
    var h := g0;
    StartedSizes(h, fixed, mustSpill, a, removed);
    for i := 0 to |cands|
      invariant Started(h, fixed, mustSpill, a, removed) && Tighter(g0, h) && a.width == width && |g0.adj| == |g0.forb| == |g0.node| && |removed| == |a.reg| == |h.node| == |h.pool| == |h.forb|
      invariant forall t :: 0 <= t < |removed| && !removed[t] ==> TakenOnly(g0, h, a.reg, t)
    {
      var c := cands[i];
      assert c in cands;
      if removed[c] {
        continue;
      }
      var pick := FirstUsable(h.pool[c], {}, h.forb[c], Some(w.calleeSaved));
      if pick.None? {
        continue;
      }
      StartedValid(h, fixed, mustSpill, a, removed);
      PreassignKeeps(h, fixed, mustSpill, a, removed, c, pick.value);
      StartedUncoloured(h, fixed, mustSpill, a, removed);
      forall t | 0 <= t < |removed| && !removed[t] && t != c
        ensures TakenOnly(g0, ForbidNeighbours(h, c, pick.value, removed[c := true]), a.reg[c := pick], t)
      {
        TakenOnlyKept(g0, h, a.reg, removed, c, pick.value, t);
      }
      a := a.(reg := a.reg[c := pick]);
      removed := removed[c := true];
      h := ForbidNeighbours(h, c, pick.value, removed);
    }
    ghost var taken := a.reg;
    StartedUncoloured(h, fixed, mustSpill, a, removed);
    a, stack := Colour(h, w, fixed, mustSpill, a, removed, before, cheaper);
    g := h;
    TighterAlloc(g0, h, fixed, mustSpill, a);
    forall t | t in stack && t < |g.forb|
      ensures TakenOnly(g0, g, a.reg, t)
    {
      assert t in Active(removed);
      TakenStays(g0, g, taken, a.reg, removed, t);
    }
  }

  lemma TakenStays(g0: Graph, g: Graph, taken: seq<Option<nat>>, reg: seq<Option<nat>>, removed: seq<bool>, t: nat)
    requires TakenOnly(g0, g, taken, t) && |taken| == |reg| == |removed|
    requires forall u :: 0 <= u < |reg| ==> if removed[u] then reg[u] == taken[u] else taken[u].None?
    ensures TakenOnly(g0, g, reg, t)
  {
    forall r | r in g.forb[t] && r !in g0.forb[t]
      ensures exists n :: n in g0.adj[t] && n < |reg| && reg[n] == Some(r)
    {
      var n :| n in g0.adj[t] && n < |taken| && taken[n] == Some(r);
      assert reg[n] == Some(r);
    }
  }

  lemma TakenOnlyKept(g0: Graph, h: Graph, reg: seq<Option<nat>>, removed: seq<bool>, c: nat, r: nat, t: nat)
    requires ValidGraph(h) && Tighter(g0, h) && |removed| == |reg| == |h.node| && c < |removed| && reg[c].None?
    requires TakenOnly(g0, h, reg, t) && t != c
    ensures TakenOnly(g0, ForbidNeighbours(h, c, r, removed[c := true]), reg[c := Some(r)], t)
  {
    var h', reg' := ForbidNeighbours(h, c, r, removed[c := true]), reg[c := Some(r)];
    forall x | x in h'.forb[t] && x !in g0.forb[t]
      ensures exists n :: n in g0.adj[t] && n < |reg'| && reg'[n] == Some(x)
    {
      if x in h.forb[t] {
        var n :| n in g0.adj[t] && n < |reg| && reg[n] == Some(x);
        assert reg'[n] == Some(x);
      } else {
        assert EdgeOk(h, c, t);
        assert c in g0.adj[t] && reg'[c] == Some(x);
      }
    }
  }

  lemma StartedUncoloured(g: Graph, fixed: seq<Option<nat>>, mustSpill: set<nat>, a: Alloc, removed: seq<bool>)
    requires Started(g, fixed, mustSpill, a, removed)
    ensures |a.reg| == |removed| && forall t :: 0 <= t < |removed| && !removed[t] ==> a.reg[t].None?
  {
    forall t | 0 <= t < |removed| && !removed[t]
      ensures a.reg[t].None?
    {
      assert Unplaced(a, t);
    }
  }

  /** Beyond its own, t's forbidden registers are ones its neighbours hold. */
  ghost predicate TakenOnly(g0: Graph, g: Graph, reg: seq<Option<nat>>, t: nat) {
    t < |g.forb| && t < |g0.forb| && t < |g0.adj| &&
    forall r :: r in g.forb[t] && r !in g0.forb[t] ==> exists n :: n in g0.adj[t] && n < |reg| && reg[n] == Some(r)
  }

  lemma StartedSizes(g: Graph, fixed: seq<Option<nat>>, mustSpill: set<nat>, a: Alloc, removed: seq<bool>)
    requires Started(g, fixed, mustSpill, a, removed)
    ensures |removed| == |a.reg| == |g.node| == |g.pool| == |g.forb| == |g.adj|
  {
  }

  lemma StartedValid(g: Graph, fixed: seq<Option<nat>>, mustSpill: set<nat>, a: Alloc, removed: seq<bool>)
    requires Started(g, fixed, mustSpill, a, removed)
    ensures ValidGraph(g)
  {
  }
}
