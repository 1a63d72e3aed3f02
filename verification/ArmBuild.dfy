/** The arm64 builder's walk (arm64/gcalloc.go), which reports the clashes, forbidden
    registers and held references that the allocator colours. */
module ArmBuild {
  import opened Graphs
  import opened Ir
  import opened Liveness
  import opened Interference
  import opened RegAlloc
  import A = ArmAlloc
  import C = Colouring
  import SparseGraph

  /** What the target adds: the instructions that read an operand after writing their
      result, the vectors, which no call preserves, and their registers. */
  datatype Target = Target(holds: Instr -> bool, vector: nat -> bool, vectorRegs: set<nat>, gcRef: nat -> bool)

  // ----- what one instruction demands -----

  function Beside(tg: Target, in_: Instr, after: set<nat>): set<nat> {
    Across(in_, after) + Set(DefSeq(in_)) + (if in_.op.Asm? || tg.holds(in_) then Set(UseSeq(in_)) else {})
  }

  /** A result against what is live after it or written with it, and against the operands
      where these are still read. */
  ghost predicate EdgeAt(tg: Target, in_: Instr, after: set<nat>, p: (nat, nat)) {
    p.0 in DefSeq(in_) && p.1 in Beside(tg, in_, after)
  }

  ghost predicate ForbidAt(tg: Target, in_: Instr, after: set<nat>, p: (nat, nat)) {
    ClobberAt(in_, after, p) || (in_.op.Call? && p.0 in Across(in_, after) && tg.vector(p.0) && p.1 in tg.vectorRegs)
  }

  ghost predicate RefAt(tg: Target, in_: Instr, after: set<nat>, t: nat) {
    HeldAt(in_, after, t) && tg.gcRef(t)
  }

  // ----- the function's demands, as far as the walk has got -----

  /** Instruction y of the x-th block, counted from block i, instruction k backwards. */
  ghost predicate Seen(f: Func, rpo: seq<nat>, outs: seq<set<nat>>, i: int, k: int, x: int, y: int) {
    AtInstr(f, rpo, outs, x, y) && (x < i || (x == i && k <= y))
  }

  ghost predicate Somewhere(f: Func, rpo: seq<nat>, outs: seq<set<nat>>, i: int, k: int, q: (Instr, set<nat>) -> bool) {
    exists x, y :: Seen(f, rpo, outs, i, k, x, y) && q(f.blocks[rpo[x]].instrs[y], LiveAfter(f, rpo, outs, x, y))
  }

  lemma SomewhereStep(f: Func, rpo: seq<nat>, outs: seq<set<nat>>, i: int, k: int, q: (Instr, set<nat>) -> bool)
    requires AtInstr(f, rpo, outs, i, k)
    ensures Somewhere(f, rpo, outs, i, k, q) <==>
            Somewhere(f, rpo, outs, i, k + 1, q) || q(f.blocks[rpo[i]].instrs[k], LiveAfter(f, rpo, outs, i, k))
  {
    hide LiveAfter;
    assert Seen(f, rpo, outs, i, k, i, k);
    if x, y :| Seen(f, rpo, outs, i, k + 1, x, y) && q(f.blocks[rpo[x]].instrs[y], LiveAfter(f, rpo, outs, x, y)) {
      assert Seen(f, rpo, outs, i, k, x, y);
    }
    if x, y :| Seen(f, rpo, outs, i, k, x, y) && q(f.blocks[rpo[x]].instrs[y], LiveAfter(f, rpo, outs, x, y)) {
      assert Seen(f, rpo, outs, i, k + 1, x, y) || (x == i && y == k);
    }
  }

  /** Before block i's walk, and after it. */
  lemma SomewhereTurn(f: Func, rpo: seq<nat>, outs: seq<set<nat>>, i: nat, q: (Instr, set<nat>) -> bool)
    requires i < |rpo| && rpo[i] < |f.blocks|
    ensures Somewhere(f, rpo, outs, i, |f.blocks[rpo[i]].instrs|, q) <==> (i > 0 && Somewhere(f, rpo, outs, i - 1, 0, q))
  {
    hide LiveAfter;
    var n := |f.blocks[rpo[i]].instrs|;
    if x, y :| Seen(f, rpo, outs, i, n, x, y) && q(f.blocks[rpo[x]].instrs[y], LiveAfter(f, rpo, outs, x, y)) {
      assert Seen(f, rpo, outs, i - 1, 0, x, y);
    }
    if x, y :| Seen(f, rpo, outs, i - 1, 0, x, y) && q(f.blocks[rpo[x]].instrs[y], LiveAfter(f, rpo, outs, x, y)) {
      assert Seen(f, rpo, outs, i, n, x, y);
    }
  }

  ghost function EdgeQ(tg: Target, p: (nat, nat)): (Instr, set<nat>) -> bool {
    (in_: Instr, after: set<nat>) => EdgeAt(tg, in_, after, p)
  }

  ghost function ForbidQ(tg: Target, p: (nat, nat)): (Instr, set<nat>) -> bool {
    (in_: Instr, after: set<nat>) => ForbidAt(tg, in_, after, p)
  }

  ghost function RefQ(tg: Target, t: nat): (Instr, set<nat>) -> bool {
    (in_: Instr, after: set<nat>) => RefAt(tg, in_, after, t)
  }

  /** The walk's findings: reported clashes, forbidden registers, held references. */
  datatype Found = Found(edges: seq<(nat, nat)>, forb: seq<set<nat>>, gc: set<nat>)

  /** The findings are exactly the demands up to there. */
  ghost predicate Exactly(tg: Target, f: Func, rpo: seq<nat>, outs: seq<set<nat>>, n: nat, i: int, k: int, r: Found) {
    && |r.forb| == n
    && (forall p :: p in r.edges <==> Somewhere(f, rpo, outs, i, k, EdgeQ(tg, p)))
    && (forall t: nat, x: nat :: t < n ==> (x in r.forb[t] <==> Somewhere(f, rpo, outs, i, k, ForbidQ(tg, (t, x)))))
    && (forall t: nat :: t in r.gc <==> Somewhere(f, rpo, outs, i, k, RefQ(tg, t)))
  }

  // ----- one instruction -----

  method Report(d: nat, s: set<nat>, edges0: seq<(nat, nat)>) returns (edges: seq<(nat, nat)>)
    ensures forall p :: p in edges <==> p in edges0 || (p.0 == d && p.1 in s)
  {
    edges := edges0;
    var rest := s;
    while rest != {}
      invariant rest <= s && forall p :: p in edges <==> p in edges0 || (p.0 == d && p.1 in s - rest)
      decreases rest
    {
      var l :| l in rest;
      edges := edges + [(d, l)];
      rest := rest - {l};
    }
  }

  method ReportAll(ds: seq<nat>, s: set<nat>, edges0: seq<(nat, nat)>) returns (edges: seq<(nat, nat)>)
    ensures forall p :: p in edges <==> p in edges0 || (p.0 in ds && p.1 in s)
  {
    edges := edges0;
    for i := 0 to |ds|
      invariant forall p :: p in edges <==> p in edges0 || (p.0 in ds[..i] && p.1 in s)
    {
      edges := Report(ds[i], s, edges);
      assert ds[..i + 1] == ds[..i] + [ds[i]];
    }
    assert ds[..|ds|] == ds;
  }

  method ForbidAll(s: set<nat>, rs: set<nat>, forb0: seq<set<nat>>) returns (forb: seq<set<nat>>)
    requires forall t :: t in s ==> t < |forb0|
    ensures |forb| == |forb0| && forall t: nat :: t < |forb| ==> forb[t] == if t in s then forb0[t] + rs else forb0[t]
  {
    forb := forb0;
    var rest := s;
    while rest != {}
      invariant rest <= s && |forb| == |forb0|
      invariant forall t: nat :: t < |forb| ==> forb[t] == if t in s - rest then forb0[t] + rs else forb0[t]
      decreases rest
    {
      var t :| t in rest;
      forb := forb[t := forb[t] + rs];
      rest := rest - {t};
    }
  }

  /** The registers one instruction keeps from temporaries. */
  method ForbidFor(tg: Target, in_: Instr, after: set<nat>, forb0: seq<set<nat>>) returns (forb: seq<set<nat>>)
    requires InstrBelow(in_, |forb0|) && after <= Upto(|forb0|)
    ensures |forb| == |forb0|
    ensures forall t: nat, x: nat :: t < |forb0| ==> (x in forb[t] <==> x in forb0[t] || ForbidAt(tg, in_, after, (t, x)))
  {
    hide DefSeq, UseSeq, Across;
    VisitSets(in_, after, |forb0|);
    var live := Across(in_, after);
    forb := forb0;
    if in_.op.Call? {
      forb := ForbidAll((set t | t in live && tg.vector(t)), tg.vectorRegs, forb);
    }
    if in_.op.Asm? {
      forb := ForbidAll(live + Set(UseSeq(in_)) + Set(DefSeq(in_)), in_.op.clobbers, forb);
    }
    forall t: nat, x: nat | t < |forb0|
      ensures x in forb[t] <==> x in forb0[t] || ForbidAt(tg, in_, after, (t, x))
    {
      assert ClobberAt(in_, after, (t, x)) <==>
             (in_.op.Asm? && x in in_.op.clobbers && t in live + Set(UseSeq(in_)) + Set(DefSeq(in_)));
    }
  }

  method Visit(tg: Target, in_: Instr, after: set<nat>, r: Found) returns (q: Found)
    requires InstrBelow(in_, |r.forb|) && after <= Upto(|r.forb|)
    ensures |q.forb| == |r.forb|
    ensures forall p :: p in q.edges <==> p in r.edges || EdgeAt(tg, in_, after, p)
    ensures forall t: nat, x: nat :: t < |r.forb| ==> (x in q.forb[t] <==> x in r.forb[t] || ForbidAt(tg, in_, after, (t, x)))
    ensures forall t: nat :: t in q.gc <==> t in r.gc || RefAt(tg, in_, after, t)
  {
    hide DefSeq, UseSeq, Across, EdgeAt, Beside, ForbidAt, InstrBelow;
    var gc := r.gc;
    var forb := ForbidFor(tg, in_, after, r.forb);
    if in_.op.Call? || in_.op.Safepoint? {
      gc := gc + set t | t in Across(in_, after) && tg.gcRef(t);
    }
    var edges := ReportAll(DefSeq(in_), Beside(tg, in_, after), r.edges);
    q := Found(edges, forb, gc);
    EdgesMean(tg, in_, after);
  }

  lemma EdgesMean(tg: Target, in_: Instr, after: set<nat>)
    ensures forall p :: EdgeAt(tg, in_, after, p) <==> p.0 in DefSeq(in_) && p.1 in Beside(tg, in_, after)
  {
  }

  lemma ExactlyStep(tg: Target, f: Func, rpo: seq<nat>, outs: seq<set<nat>>, n: nat, i: nat, k: nat, r: Found, q: Found)
    requires AtInstr(f, rpo, outs, i, k) && Exactly(tg, f, rpo, outs, n, i, k + 1, r) && |q.forb| == n
    requires var in_, after := f.blocks[rpo[i]].instrs[k], LiveAfter(f, rpo, outs, i, k);
             && (forall p :: p in q.edges <==> p in r.edges || EdgeAt(tg, in_, after, p))
             && (forall t: nat, x: nat :: t < n ==> (x in q.forb[t] <==> x in r.forb[t] || ForbidAt(tg, in_, after, (t, x))))
             && (forall t: nat :: t in q.gc <==> t in r.gc || RefAt(tg, in_, after, t))
    ensures Exactly(tg, f, rpo, outs, n, i, k, q)
  {
    hide Somewhere, EdgeAt, ForbidAt, RefAt, LiveAfter;
    forall p
      ensures p in q.edges <==> Somewhere(f, rpo, outs, i, k, EdgeQ(tg, p))
    {
      SomewhereStep(f, rpo, outs, i, k, EdgeQ(tg, p));
    }
    forall t: nat, x: nat | t < n
      ensures x in q.forb[t] <==> Somewhere(f, rpo, outs, i, k, ForbidQ(tg, (t, x)))
    {
      SomewhereStep(f, rpo, outs, i, k, ForbidQ(tg, (t, x)));
    }
    forall t: nat
      ensures t in q.gc <==> Somewhere(f, rpo, outs, i, k, RefQ(tg, t))
    {
      SomewhereStep(f, rpo, outs, i, k, RefQ(tg, t));
    }
  }

  lemma ExactlyTurn(tg: Target, f: Func, rpo: seq<nat>, outs: seq<set<nat>>, n: nat, i: nat, r: Found)
    requires i < |rpo| && rpo[i] < |f.blocks|
    requires if i == 0 then r == Found([], seq(n, _ => {}), {}) else Exactly(tg, f, rpo, outs, n, i - 1, 0, r)
    ensures Exactly(tg, f, rpo, outs, n, i, |f.blocks[rpo[i]].instrs|, r)
  {
    hide Somewhere, EdgeQ, ForbidQ, RefQ;
    var m := |f.blocks[rpo[i]].instrs|;
    forall p
      ensures p in r.edges <==> Somewhere(f, rpo, outs, i, m, EdgeQ(tg, p))
    {
      SomewhereTurn(f, rpo, outs, i, EdgeQ(tg, p));
    }
    forall t: nat, x: nat | t < n
      ensures x in r.forb[t] <==> Somewhere(f, rpo, outs, i, m, ForbidQ(tg, (t, x)))
    {
      SomewhereTurn(f, rpo, outs, i, ForbidQ(tg, (t, x)));
    }
    forall t: nat
      ensures t in r.gc <==> Somewhere(f, rpo, outs, i, m, RefQ(tg, t))
    {
      SomewhereTurn(f, rpo, outs, i, RefQ(tg, t));
    }
  }

  // ----- the whole walk -----

  ghost predicate WalkOk(f: Func, rpo: seq<nat>, outs: seq<set<nat>>, n: nat) {
    && |outs| == |f.blocks|
    && forall i :: 0 <= i < |rpo| ==> rpo[i] < |f.blocks| && BlockBelow(f.blocks[rpo[i]], n) && outs[rpo[i]] <= Upto(n)
  }

  method WalkBlock(tg: Target, f: Func, ghost rpo: seq<nat>, outs: seq<set<nat>>, n: nat, ghost i: nat, here: nat, r: Found) returns (q: Found)
    requires WalkOk(f, rpo, outs, n) && i < |rpo| && here == rpo[i] && Exactly(tg, f, rpo, outs, n, i, |f.blocks[here].instrs|, r)
    ensures Exactly(tg, f, rpo, outs, n, i, 0, q)
  {
    hide Exactly, EdgeAt, ForbidAt, RefAt, RawFrom, DefSeq, UseSeq, WalkOk;
    InRange(f, rpo, outs, n, i);
    q := r;
    var b := f.blocks[here];
    var live := outs[here] + Set(TermUses(b));
    ghost var end := live;
    var k := |b.instrs|;
    NothingFrom(b.instrs, end);
    while k > 0
      invariant 0 <= k <= |b.instrs| && live == RawFrom(b.instrs, k, end) && Exactly(tg, f, rpo, outs, n, i, k, q)
    {
      k := k - 1;
      ghost var was := q;
      RawBelow(b.instrs, k + 1, end, n);
      ExactlySize(tg, f, rpo, outs, n, i, k + 1, q);
      assert AtInstr(f, rpo, outs, i, k) && LiveAfter(f, rpo, outs, i, k) == live;
      q := Visit(tg, b.instrs[k], live, q);
      ExactlyStep(tg, f, rpo, outs, n, i, k, was, q);
      RawStep(b.instrs, k, end);
      live := live - Set(DefSeq(b.instrs[k])) + Set(UseSeq(b.instrs[k]));
    }
  }

  lemma InRange(f: Func, rpo: seq<nat>, outs: seq<set<nat>>, n: nat, i: nat)
    requires WalkOk(f, rpo, outs, n) && i < |rpo|
    ensures |outs| == |f.blocks| && rpo[i] < |f.blocks| && BlockBelow(f.blocks[rpo[i]], n) && End(f.blocks[rpo[i]], outs[rpo[i]]) <= Upto(n)
  {
  }

  lemma ExactlySize(tg: Target, f: Func, rpo: seq<nat>, outs: seq<set<nat>>, n: nat, i: int, k: int, r: Found)
    requires Exactly(tg, f, rpo, outs, n, i, k, r)
    ensures |r.forb| == n
  {
  }

  /** The walk reports exactly what some reachable instruction demands. */
  method Walk(tg: Target, f: Func, rpo: seq<nat>, outs: seq<set<nat>>, n: nat) returns (r: Found)
    requires WalkOk(f, rpo, outs, n)
    ensures Exactly(tg, f, rpo, outs, n, |rpo| - 1, 0, r)
  {
    hide Exactly, WalkOk;
    r := Found([], seq(n, _ => {}), {});
    if |rpo| == 0 {
      NothingToWalk(tg, f, outs, n, rpo, r);
    }
    for i := 0 to |rpo|
      invariant i == 0 ==> r == Found([], seq(n, _ => {}), {})
      invariant i > 0 || |rpo| == 0 ==> Exactly(tg, f, rpo, outs, n, i - 1, 0, r)
    {
      InRange(f, rpo, outs, n, i);
      ExactlyTurn(tg, f, rpo, outs, n, i, r);
      r := WalkBlock(tg, f, rpo, outs, n, i, rpo[i], r);
    }
  }

  lemma NothingToWalk(tg: Target, f: Func, outs: seq<set<nat>>, n: nat, rpo: seq<nat>, r: Found)
    requires rpo == [] && r == Found([], seq(n, _ => {}), {})
    ensures Exactly(tg, f, rpo, outs, n, -1, 0, r)
  {
  }

  // ----- from a function to registers -----

  /** x is in the allocation's hands. */
  ghost predicate Free(t: A.Temps, reg: seq<Option<nat>>, x: nat) {
    x < |reg| && x < |t.fixed| && t.fixed[x].None?
  }

  /** Around every reachable instruction, what it keeps apart is in different registers. */
  ghost predicate Separate(tg: Target, t: A.Temps, f: Func, rpo: seq<nat>, outs: seq<set<nat>>, reg: seq<Option<nat>>) {
    forall i, k, p :: AtInstr(f, rpo, outs, i, k) && EdgeAt(tg, f.blocks[rpo[i]].instrs[k], LiveAfter(f, rpo, outs, i, k), p) ==>
      A.KeptApart(t, reg, p)
  }

  /** No temporary is in a register some instruction keeps it from. */
  ghost predicate Avoided(tg: Target, t: A.Temps, f: Func, rpo: seq<nat>, outs: seq<set<nat>>, reg: seq<Option<nat>>) {
    forall i, k, x: nat, r: nat :: AtInstr(f, rpo, outs, i, k) && Free(t, reg, x) &&
                                   ForbidAt(tg, f.blocks[rpo[i]].instrs[k], LiveAfter(f, rpo, outs, i, k), (x, r)) ==>
      reg[x] != Some(r)
  }

  /** No managed reference held at a call or safepoint is in a register. */
  ghost predicate OnStack(tg: Target, t: A.Temps, f: Func, rpo: seq<nat>, outs: seq<set<nat>>, reg: seq<Option<nat>>) {
    forall i, k, x: nat :: AtInstr(f, rpo, outs, i, k) && Free(t, reg, x) &&
                           RefAt(tg, f.blocks[rpo[i]].instrs[k], LiveAfter(f, rpo, outs, i, k), x) ==>
      reg[x].None?
  }

  lemma DemandFound(f: Func, rpo: seq<nat>, outs: seq<set<nat>>, i: int, k: int, q: (Instr, set<nat>) -> bool)
    requires AtInstr(f, rpo, outs, i, k) && q(f.blocks[rpo[i]].instrs[k], LiveAfter(f, rpo, outs, i, k))
    ensures Somewhere(f, rpo, outs, |rpo| - 1, 0, q)
  {
    hide LiveAfter;
    assert Seen(f, rpo, outs, |rpo| - 1, 0, i, k);
  }

  lemma EdgeBelow(tg: Target, in_: Instr, after: set<nat>, n: nat, p: (nat, nat))
    requires InstrBelow(in_, n) && after <= Upto(n) && EdgeAt(tg, in_, after, p)
    ensures p.0 < n && p.1 < n
  {
    hide DefSeq, UseSeq, Across;
    VisitSets(in_, after, n);
  }

  lemma AfterBelow(f: Func, rpo: seq<nat>, outs: seq<set<nat>>, n: nat, x: nat, y: nat)
    requires WalkOk(f, rpo, outs, n) && AtInstr(f, rpo, outs, x, y)
    ensures InstrBelow(f.blocks[rpo[x]].instrs[y], n) && LiveAfter(f, rpo, outs, x, y) <= Upto(n)
  {
    hide RawFrom, InstrBelow, WalkOk;
    InRange(f, rpo, outs, n, x);
    var b := f.blocks[rpo[x]];
    RawBelow(b.instrs, y + 1, End(b, outs[rpo[x]]), n);
  }

  lemma FoundBelow(tg: Target, f: Func, rpo: seq<nat>, outs: seq<set<nat>>, n: nat, r: Found, p: (nat, nat))
    requires WalkOk(f, rpo, outs, n) && Exactly(tg, f, rpo, outs, n, |rpo| - 1, 0, r) && p in r.edges
    ensures p.0 < n && p.1 < n
  {
    hide WalkOk, EdgeAt, LiveAfter, InstrBelow;
    var x, y :| Seen(f, rpo, outs, |rpo| - 1, 0, x, y) && EdgeQ(tg, p)(f.blocks[rpo[x]].instrs[y], LiveAfter(f, rpo, outs, x, y));
    AfterBelow(f, rpo, outs, n, x, y);
    EdgeBelow(tg, f.blocks[rpo[x]].instrs[y], LiveAfter(f, rpo, outs, x, y), n, p);
  }

  /** The arm64 allocator on a function: walk, seal, colour. */
  method AllocateFunc(tg: Target, f: Func, rpo: seq<nat>, outs: seq<set<nat>>, t: A.Temps, pool: seq<seq<nat>>, w: C.Weights,
                      crossing: set<nat>, width: seq<nat>, cands: seq<nat>,
                      before: (nat, nat, nat, nat) -> bool, cheaper: (nat, nat, nat, nat) -> bool)
    returns (a: C.Alloc)
    requires A.TempsOk(t) && WalkOk(f, rpo, outs, |t.node|) && |pool| == |t.node| == |width| && C.WidthsOk(width)
    requires forall x :: 0 <= x < |t.node| ==> t.node[x] == t.fixed[x].None?
    requires (forall x :: 0 <= x < |pool| ==> Distinct(pool[x])) && forall c :: c in cands ==> c < |t.node|
    requires C.WeightsFit(C.Graph(t.node, [], [], pool), w)
    ensures |a.reg| == |t.node| && a.width == width && C.SlotsOk(a)
    ensures forall x :: 0 <= x < |a.reg| ==> if t.fixed[x].Some? then a.reg[x] == t.fixed[x] else C.Housed(a, x)
    ensures Separate(tg, t, f, rpo, outs, a.reg) && Avoided(tg, t, f, rpo, outs, a.reg) && OnStack(tg, t, f, rpo, outs, a.reg)
    ensures forall x :: x in crossing && x < |a.reg| && t.fixed[x].None? ==> a.reg[x].None?
    ensures forall x :: 0 <= x < |a.reg| && t.fixed[x].None? && a.reg[x].Some? ==> a.reg[x].value in pool[x]
  {
    hide C.WeightsFit, C.SlotsOk, C.Tighter, C.Guaranteed, WalkOk, Separate, Avoided, OnStack, Exactly;
    var r := Walk(tg, f, rpo, outs, |t.node|);
    ExactlySize(tg, f, rpo, outs, |t.node|, |rpo| - 1, 0, r);
    forall p | p in r.edges
      ensures A.ClashOk(t, p)
    {
      FoundBelow(tg, f, rpo, outs, |t.node|, r, p);
    }
    ghost var g, tight, stack;
    a, g, tight, stack := A.Allocate(t, r.forb, pool, r.edges, w, r.gc + crossing, width, cands, before, cheaper);
    AllSeparate(tg, t, f, rpo, outs, r, a);
    FromPool(t, g, r.gc + crossing, a);
    AllAvoided(tg, t, f, rpo, outs, r, g, r.gc + crossing, a);
    AllOnStack(tg, t, f, rpo, outs, r, g, r.gc + crossing, a);
  }

  lemma FromPool(t: A.Temps, g: C.Graph, must: set<nat>, a: C.Alloc)
    requires C.AllocOk(g, t.fixed, must, a) && g.node == t.node && |t.fixed| == |t.node|
    requires forall x :: 0 <= x < |t.node| ==> t.node[x] == t.fixed[x].None?
    ensures forall x :: 0 <= x < |a.reg| && t.fixed[x].None? && a.reg[x].Some? ==> a.reg[x].value in g.pool[x]
  {
    hide C.SlotsOk;
    forall x | 0 <= x < |a.reg| && t.fixed[x].None? && a.reg[x].Some?
      ensures a.reg[x].value in g.pool[x]
    {
      assert C.RegOk(g, a.reg, x);
    }
  }

  lemma AllSeparate(tg: Target, t: A.Temps, f: Func, rpo: seq<nat>, outs: seq<set<nat>>, r: Found, a: C.Alloc)
    requires Exactly(tg, f, rpo, outs, |t.node|, |rpo| - 1, 0, r) && forall e :: e in r.edges ==> A.KeptApart(t, a.reg, e)
    ensures Separate(tg, t, f, rpo, outs, a.reg)
  {
    hide Somewhere, A.KeptApart, EdgeAt, LiveAfter;
    forall i, k, p | AtInstr(f, rpo, outs, i, k) && EdgeAt(tg, f.blocks[rpo[i]].instrs[k], LiveAfter(f, rpo, outs, i, k), p)
      ensures A.KeptApart(t, a.reg, p)
    {
      DemandFound(f, rpo, outs, i, k, EdgeQ(tg, p));
    }
  }

  lemma AllAvoided(tg: Target, t: A.Temps, f: Func, rpo: seq<nat>, outs: seq<set<nat>>, r: Found, g: C.Graph, must: set<nat>, a: C.Alloc)
    requires A.TempsOk(t) && Exactly(tg, f, rpo, outs, |t.node|, |rpo| - 1, 0, r) && C.AllocOk(g, t.fixed, must, a)
    requires g.node == t.node && |g.forb| == |t.node| && forall x :: 0 <= x < |g.forb| ==> r.forb[x] <= g.forb[x]
    requires forall x :: 0 <= x < |t.node| ==> t.node[x] == t.fixed[x].None?
    ensures Avoided(tg, t, f, rpo, outs, a.reg)
  {
    hide Somewhere, ForbidAt, LiveAfter, C.SlotsOk, C.ValidGraph;
    forall i, k, x: nat, y: nat | AtInstr(f, rpo, outs, i, k) && Free(t, a.reg, x) &&
                                  ForbidAt(tg, f.blocks[rpo[i]].instrs[k], LiveAfter(f, rpo, outs, i, k), (x, y))
      ensures a.reg[x] != Some(y)
    {
      DemandFound(f, rpo, outs, i, k, ForbidQ(tg, (x, y)));
      assert C.RegOk(g, a.reg, x);
    }
  }

  lemma AllOnStack(tg: Target, t: A.Temps, f: Func, rpo: seq<nat>, outs: seq<set<nat>>, r: Found, g: C.Graph, must: set<nat>, a: C.Alloc)
    requires Exactly(tg, f, rpo, outs, |t.node|, |rpo| - 1, 0, r) && C.AllocOk(g, t.fixed, must, a) && r.gc <= must && g.node == t.node
    requires |t.node| == |t.fixed| && forall x :: 0 <= x < |t.node| ==> t.node[x] == t.fixed[x].None?
    ensures OnStack(tg, t, f, rpo, outs, a.reg)
  {
    hide Somewhere, RefAt, LiveAfter, C.SlotsOk, C.ValidGraph, C.Proper;
    forall i, k, x: nat | AtInstr(f, rpo, outs, i, k) && Free(t, a.reg, x) &&
                          RefAt(tg, f.blocks[rpo[i]].instrs[k], LiveAfter(f, rpo, outs, i, k), x)
      ensures a.reg[x].None?
    {
      DemandFound(f, rpo, outs, i, k, RefQ(tg, x));
      assert C.OnStack(a, x);
    }
  }
}
