/** The arm64 allocator's graph, from the clashes its builder reports to the registers
    given out (arm64/gcalloc.go, arm64/interference.go): the colouring reads its
    neighbours from the sealed rows. */
module ArmAlloc {
  import opened Graphs
  import opened SparseGraph
  import C = Colouring

  /** What the builder knows of each temporary: whether it is in the graph, its register
      file, and the register the calling convention pins it to. */
  datatype Temps = Temps(node: seq<bool>, float: seq<bool>, fixed: seq<Option<nat>>)

  ghost predicate TempsOk(t: Temps) {
    && |t.node| == |t.float| == |t.fixed| <= Half
    && forall x :: 0 <= x < |t.node| && t.node[x] ==> t.fixed[x].None?
  }

  /** A clash is reported between temporaries that are in the graph or pinned. */
  ghost predicate ClashOk(t: Temps, e: (nat, nat)) {
    && e.0 < |t.node| && e.1 < |t.node| && e.0 < |t.fixed| && e.1 < |t.fixed|
    && (t.node[e.0] || t.fixed[e.0].Some?) && (t.node[e.1] || t.fixed[e.1].Some?)
  }

  /** Both ends share a register file. */
  ghost predicate Rivals(t: Temps, e: (nat, nat)) {
    e.0 != e.1 && e.0 < |t.float| && e.1 < |t.float| && t.float[e.0] == t.float[e.1]
  }

  /** The clash forces x apart from the pinned y. */
  ghost predicate ForbidsAt(t: Temps, e: (nat, nat), x: nat, r: nat) {
    && Rivals(t, e) && e.0 < |t.fixed| && e.1 < |t.fixed|
    && ((x == e.0 && t.fixed[e.0].None? && t.fixed[e.1] == Some(r)) || (x == e.1 && t.fixed[e.1].None? && t.fixed[e.0] == Some(r)))
  }

  ghost predicate JoinsAt(t: Temps, e: (nat, nat), x: nat, y: nat) {
    && Rivals(t, e) && e.0 < |t.fixed| && e.1 < |t.fixed| && t.fixed[e.0].None? && t.fixed[e.1].None?
    && ((x, y) == e || (y, x) == e)
  }

  /** What the graph holds after the clashes in `done`, on top of the registers
      forbidden for other reasons. */
  ghost predicate Holds(t: Temps, forb0: seq<set<nat>>, forb: seq<set<nat>>, reported: seq<nat>, done: seq<(nat, nat)>) {
    && |forb| == |forb0| == |t.node|
    && (forall x: nat, r: nat :: x < |forb| ==> (r in forb[x] <==> r in forb0[x] || exists e :: e in done && ForbidsAt(t, e, x, r)))
    && (forall x: nat, y: nat :: Reported(reported, x, y) <==> exists e :: e in done && JoinsAt(t, e, x, y))
  }

  /** Reports one clash. */
  method AddEdge(ig: InterferenceGraph, t: Temps, ghost forb0: seq<set<nat>>, forb: seq<set<nat>>,
                 e: (nat, nat), ghost done: seq<(nat, nat)>)
    returns (forb': seq<set<nat>>)
    requires ig.Building() && ig.nodes == |t.node| && TempsOk(t) && ClashOk(t, e) && Holds(t, forb0, forb, ig.reported, done)
    modifies ig
    ensures ig.Building() && Holds(t, forb0, forb', ig.reported, done + [e])
  {
    var a, b := e.0, e.1;
    forb' := forb;
    if a != b && t.float[a] == t.float[b] {
      if t.fixed[a].None? && t.fixed[b].None? {
        ig.AddPair(a, b);
      } else if t.fixed[b].None? {
        forb' := forb[b := forb[b] + {t.fixed[a].value}];
      } else if t.fixed[a].None? {
        forb' := forb[a := forb[a] + {t.fixed[b].value}];
      }
    }
    HoldsMore(t, forb0, forb, old(ig.reported), done, e, forb', ig.reported);
  }

  lemma HoldsMore(t: Temps, forb0: seq<set<nat>>, forb: seq<set<nat>>, reported: seq<nat>, done: seq<(nat, nat)>,
                  e: (nat, nat), forb': seq<set<nat>>, reported': seq<nat>)
    requires Holds(t, forb0, forb, reported, done) && |forb'| == |forb|
    requires forall x: nat, r: nat :: x < |forb| ==> (r in forb'[x] <==> r in forb[x] || ForbidsAt(t, e, x, r))
    requires forall x: nat, y: nat :: Reported(reported', x, y) <==> Reported(reported, x, y) || JoinsAt(t, e, x, y)
    ensures Holds(t, forb0, forb', reported', done + [e])
  {
    hide ForbidsAt, JoinsAt, Reported;
    var all := done + [e];
    assert forall c :: c in all <==> c in done || c == e;
  }

  /** Each node's neighbours, read from the sealed rows. */
  method Rows(ig: InterferenceGraph) returns (adj: seq<set<nat>>)
    requires ig.Sealed()
    ensures |adj| == ig.nodes
    ensures forall n: nat, m: nat :: n < ig.nodes ==> (m in adj[n] <==> Reported(ig.reported, n, m))
  {
    adj := [];
    for n := 0 to ig.nodes
      invariant |adj| == n
      invariant forall x: nat, m: nat :: x < n ==> (m in adj[x] <==> Reported(ig.reported, x, m))
    {
      var row := ig.Row(n);
      adj := adj + [set m | m in row];
    }
  }

  lemma RowsValid(t: Temps, forb: seq<set<nat>>, pool: seq<seq<nat>>, reported: seq<nat>, adj: seq<set<nat>>, done: seq<(nat, nat)>,
                  forb0: seq<set<nat>>)
    requires TempsOk(t) && Holds(t, forb0, forb, reported, done) && |adj| == |t.node| == |pool|
    requires forall n: nat, m: nat :: n < |adj| ==> (m in adj[n] <==> Reported(reported, n, m))
    requires (forall e :: e in done ==> ClashOk(t, e)) && forall x :: 0 <= x < |pool| ==> Distinct(pool[x])
    ensures C.ValidGraph(C.Graph(t.node, adj, forb, pool))
  {
    hide Reported;
    var g := C.Graph(t.node, adj, forb, pool);
    forall a: nat, b: nat | a < |g.adj| && b in g.adj[a]
      ensures C.EdgeOk(g, a, b)
    {
      var e :| e in done && JoinsAt(t, e, a, b);
      assert JoinsAt(t, e, b, a) && ClashOk(t, e);
      assert Reported(reported, b, a);
    }
  }

  /** What every reported clash is owed: one register file's temporaries never share a
      register, unless the calling convention pins both. */
  ghost predicate KeptApart(t: Temps, reg: seq<Option<nat>>, e: (nat, nat)) {
    && e.0 < |reg| && e.1 < |reg| && e.0 < |t.fixed| && e.1 < |t.fixed|
    && (Rivals(t, e) && !(t.fixed[e.0].Some? && t.fixed[e.1].Some?) && reg[e.0].Some? && reg[e.1].Some? ==> reg[e.0] != reg[e.1])
  }

  lemma ClashesKept(t: Temps, forb0: seq<set<nat>>, g: C.Graph, reported: seq<nat>, edges: seq<(nat, nat)>, mustSpill: set<nat>,
                    a: C.Alloc, e: (nat, nat))
    requires TempsOk(t) && Holds(t, forb0, g.forb, reported, edges) && g.node == t.node && |g.adj| == |g.node|
    requires forall n: nat, m: nat :: n < |g.adj| ==> (m in g.adj[n] <==> Reported(reported, n, m))
    requires e in edges && ClashOk(t, e) && C.AllocOk(g, t.fixed, mustSpill, a)
    ensures KeptApart(t, a.reg, e)
  {
    hide Reported, C.SlotsOk, C.ValidGraph;
    if Rivals(t, e) && a.reg[e.0].Some? && a.reg[e.1].Some? {
      if t.fixed[e.0].None? && t.fixed[e.1].None? {
        assert JoinsAt(t, e, e.0, e.1);
        assert e.1 in g.adj[e.0];
        assert C.Differ(a.reg, e.0, e.1);
      } else if t.fixed[e.0].None? {
        assert ForbidsAt(t, e, e.0, t.fixed[e.1].value);
        assert C.RegOk(g, a.reg, e.0);
      } else if t.fixed[e.1].None? {
        assert ForbidsAt(t, e, e.1, t.fixed[e.0].value);
        assert C.RegOk(g, a.reg, e.1);
      }
    }
  }

  /** The arm64 allocation: the reported clashes are packed, sealed into rows and
      coloured. */
  method Allocate(t: Temps, forb0: seq<set<nat>>, pool: seq<seq<nat>>, edges: seq<(nat, nat)>, w: C.Weights, mustSpill: set<nat>,
                  width: seq<nat>, cands: seq<nat>, before: (nat, nat, nat, nat) -> bool, cheaper: (nat, nat, nat, nat) -> bool)
    returns (a: C.Alloc, ghost g: C.Graph, ghost tight: C.Graph, ghost stack: seq<nat>)
    requires TempsOk(t) && |forb0| == |pool| == |t.node| == |width| && C.WidthsOk(width)
    requires (forall e :: e in edges ==> ClashOk(t, e)) && (forall x :: 0 <= x < |pool| ==> Distinct(pool[x]))
    requires C.WeightsFit(C.Graph(t.node, [], [], pool), w) && forall c :: c in cands ==> c < |t.node|
    ensures |g.adj| == |g.forb| == |t.node| && g.node == t.node && g.pool == pool
    ensures forall x: nat, y: nat :: x < |g.adj| ==> (y in g.adj[x] <==> exists e :: e in edges && JoinsAt(t, e, x, y))
    ensures forall x: nat, r: nat :: x < |g.forb| ==> (r in g.forb[x] <==> r in forb0[x] || exists e :: e in edges && ForbidsAt(t, e, x, r))
    ensures C.AllocOk(g, t.fixed, mustSpill, a) && a.width == width
    ensures C.Tighter(g, tight) && C.Guaranteed(tight, w, a, stack)
    ensures forall e :: e in edges ==> KeptApart(t, a.reg, e)
  {
    hide C.AllocOk, C.ValidGraph, C.WeightsFit, C.WidthsOk, C.Tighter, C.Guaranteed, C.TakenOnly;
    var ig := new InterferenceGraph(|t.node|);
    var forb := forb0;
    for i := 0 to |edges|
      invariant ig.Building() && ig.nodes == |t.node| && Holds(t, forb0, forb, ig.reported, edges[..i])
    {
      assert edges[..i + 1] == edges[..i] + [edges[i]];
      assert edges[i] in edges;
      forb := AddEdge(ig, t, forb0, forb, edges[i], edges[..i]);
    }
    assert edges[..|edges|] == edges;
    ig.Seal();
    var adj := Rows(ig);
    RowsValid(t, forb, pool, ig.reported, adj, edges, forb0);
    var graph := C.Graph(t.node, adj, forb, pool);
    FitsToo(graph, w);
    a, stack, tight := C.AssignArm64(graph, w, t.fixed, mustSpill, width, cands, before, cheaper);
    g := graph;
    forall e | e in edges
      ensures KeptApart(t, a.reg, e)
    {
      ClashesKept(t, forb0, g, ig.reported, edges, mustSpill, a, e);
    }
  }

  lemma FitsToo(g: C.Graph, w: C.Weights)
    requires C.WeightsFit(C.Graph(g.node, [], [], g.pool), w)
    ensures C.WeightsFit(g, w)
  {
  }
}
