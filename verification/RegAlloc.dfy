/** Register allocation end to end (amd64/regalloc.go): control flow, liveness,
    interference, colouring and caller saves, and the theorem that the allocated
    function runs as the original does. */
module RegAlloc {
  import opened Graphs
  import opened Cfg
  import opened Ir
  import opened Liveness
  import opened LiveSets
  import opened Interference
  import opened Machine
  import opened CallerSaves
  import opened RegSim
  import C = Colouring

  /** Where the allocation puts a temporary. */
  function Home(a: C.Alloc): nat -> Loc {
    (t: nat) => if t < |a.reg| && a.reg[t].Some? then Reg(a.reg[t].value)
                else if t < |a.slot| && a.slot[t].Some? then Slot(a.slot[t].value)
                else Reg(0)
  }

  // ----- what is assumed -----

  /** The two register files: allocation orders and pinned registers respect them. */
  datatype Banks = Banks(ints: seq<nat>, floats: seq<nat>, floatRegs: set<nat>)

  ghost predicate BanksOk(temps: seq<TempInfo>, k: Banks) {
    && Distinct(k.ints) && Distinct(k.floats)
    && (forall r :: r in k.ints ==> r !in k.floatRegs) && (forall r :: r in k.floats ==> r in k.floatRegs)
    && (forall t :: 0 <= t < |temps| && temps[t].fixed.Some? ==> (temps[t].fixed.value in k.floatRegs <==> temps[t].float))
  }

  function Pool(k: Banks, t: TempInfo): seq<nat> {
    if t.float then k.floats else k.ints
  }

  /** The code the allocator is given: no phis, temporaries in range. */
  ghost predicate Allocatable(f: Func, n: nat) {
    && WellFormedFunc(f)
    && forall b :: 0 <= b < |f.blocks| ==> f.blocks[b].phis == [] && BlockBelow(f.blocks[b], n)
  }

  /** Instruction k of the i-th reachable block, and what is live after it. */
  ghost predicate AtInstr(f: Func, rpo: seq<nat>, outs: seq<set<nat>>, i: int, k: int) {
    0 <= i < |rpo| && rpo[i] < |f.blocks| && rpo[i] < |outs| && 0 <= k < |f.blocks[rpo[i]].instrs|
  }

  ghost function LiveAfter(f: Func, rpo: seq<nat>, outs: seq<set<nat>>, i: int, k: int): set<nat>
    requires AtInstr(f, rpo, outs, i, k)
  {
    RawFrom(f.blocks[rpo[i]].instrs, k + 1, End(f.blocks[rpo[i]], outs[rpo[i]]))
  }

  /** Two pinned temporaries wanted at once have different registers, and none is pinned
      to a register an assembly destroys around it. An assembly's pinned input that dies
      there may share its register with a pinned output. */
  ghost predicate PinnedApart(f: Func, rpo: seq<nat>, outs: seq<set<nat>>, temps: seq<TempInfo>) {
    && (forall i, k, p :: AtInstr(f, rpo, outs, i, k) && BesideAt(f.blocks[rpo[i]].instrs[k], LiveAfter(f, rpo, outs, i, k), p) ==> PinsDiffer(temps, p))
    && (forall p :: Clobber(f, rpo, outs, p) ==> PinSafe(temps, p))
  }

  /** An assembly's pins are its operands in fixed registers. */
  ghost predicate PinsMarked(in_: Instr, temps: seq<TempInfo>) {
    in_.op.Asm? ==> forall t :: (t in DefSeq(in_) || t in UseSeq(in_)) && t < |temps| ==> (t in in_.op.pins <==> temps[t].fixed.Some?)
  }

  ghost predicate AllPinsMarked(f: Func, temps: seq<TempInfo>) {
    forall b, k :: 0 <= b < |f.blocks| && 0 <= k < |f.blocks[b].instrs| ==> PinsMarked(f.blocks[b].instrs[k], temps)
  }

  ghost predicate PinsDiffer(temps: seq<TempInfo>, p: (nat, nat)) {
    p.0 < |temps| && p.1 < |temps| && temps[p.0].fixed.Some? && temps[p.1].fixed.Some? ==> temps[p.0].fixed != temps[p.1].fixed
  }

  ghost predicate PinSafe(temps: seq<TempInfo>, p: (nat, nat)) {
    p.0 < |temps| ==> temps[p.0].fixed != Some(p.1)
  }

  // ----- the coloured graph keeps clashes apart -----

  function Fixed(temps: seq<TempInfo>): (s: seq<Option<nat>>)
    ensures |s| == |temps| && forall t :: 0 <= t < |temps| ==> s[t] == temps[t].fixed
  {
    seq(|temps|, t requires 0 <= t < |temps| => temps[t].fixed)
  }

  function GcRefs(temps: seq<TempInfo>): (s: seq<bool>)
    ensures |s| == |temps| && forall t :: 0 <= t < |temps| ==> s[t] == temps[t].gcRef
  {
    seq(|temps|, t requires 0 <= t < |temps| => temps[t].gcRef)
  }

  function GraphOf(temps: seq<TempInfo>, k: Banks, adj: seq<set<nat>>, forb: seq<set<nat>>): (g: C.Graph)
    ensures g.adj == adj && g.forb == forb && |g.node| == |g.pool| == |temps|
    ensures forall t :: 0 <= t < |temps| ==> g.node[t] == temps[t].fixed.None? && g.pool[t] == Pool(k, temps[t])
  {
    C.Graph(seq(|temps|, t requires 0 <= t < |temps| => temps[t].fixed.None?), adj, forb,
            seq(|temps|, t requires 0 <= t < |temps| => Pool(k, temps[t])))
  }

  lemma GraphValid(c: ColorGraph, k: Banks)
    requires c.Valid() && BanksOk(c.temps, k)
    ensures C.ValidGraph(GraphOf(c.temps, k, c.adj, c.forb))
  {
    var g := GraphOf(c.temps, k, c.adj, c.forb);
    forall a: nat, b: nat | a < |g.adj| && b in g.adj[a]
      ensures C.EdgeOk(g, a, b)
    {
      assert (a, b) in c.clash;
      assert (b, a) in c.clash;
    }
  }

  ghost predicate Coloured(c: ColorGraph, k: Banks, a: C.Alloc)
    reads c
  {
    && c.Valid() && BanksOk(c.temps, k) && C.ValidGraph(GraphOf(c.temps, k, c.adj, c.forb))
    && C.AllocOk(GraphOf(c.temps, k, c.adj, c.forb), Fixed(c.temps), c.gc, a)
    && forall t :: 0 <= t < |a.width| ==> a.width[t] == 8
  }

  /** A register of the right file. */
  lemma InBank(c: ColorGraph, k: Banks, a: C.Alloc, t: nat)
    requires Coloured(c, k, a) && t < |c.temps|
    ensures |a.reg| == |a.slot| == |c.temps|
    ensures a.reg[t].Some? != a.slot[t].Some?
    ensures a.reg[t].Some? ==> (a.reg[t].value in k.floatRegs <==> c.temps[t].float)
    ensures c.temps[t].fixed.Some? ==> a.reg[t] == c.temps[t].fixed
  {
    var g := GraphOf(c.temps, k, c.adj, c.forb);
    assert C.RegOk(g, a.reg, t);
    assert Fixed(c.temps)[t] == c.temps[t].fixed;
  }

  /** Clashing temporaries have different homes. */
  lemma ClashApart(c: ColorGraph, k: Banks, a: C.Alloc, p: (nat, nat))
    requires Coloured(c, k, a) && p in c.clash && PinsDiffer(c.temps, p)
    ensures Home(a)(p.0) != Home(a)(p.1)
  {
    assert p.0 < |c.temps| && p.1 < |c.temps| && p.0 != p.1 && (p.1, p.0) in c.clash;
    InBank(c, k, a, p.0);
    InBank(c, k, a, p.1);
    if a.reg[p.0].Some? && a.reg[p.1].Some? && c.temps[p.0].float == c.temps[p.1].float {
      RegsApart(c, k, a, p.0, p.1);
    } else if a.slot[p.0].Some? && a.slot[p.1].Some? {
      SlotsApart(a, p.0, p.1);
    }
  }

  lemma SlotsApart(a: C.Alloc, x: nat, y: nat)
    requires C.SlotsOk(a) && x < |a.slot| && y < |a.slot| && x != y && a.slot[x].Some? && a.slot[y].Some?
    ensures a.slot[x] != a.slot[y]
  {
    assert if x < y then C.SlotsDisjoint(a, x, y) else C.SlotsDisjoint(a, y, x);
    assert C.SlotAt(a, x) && C.SlotAt(a, y);
  }

  lemma RegsApart(c: ColorGraph, k: Banks, a: C.Alloc, x: nat, y: nat)
    requires Coloured(c, k, a) && (x, y) in c.clash && (y, x) in c.clash && PinsDiffer(c.temps, (x, y))
    requires x < |c.temps| && y < |c.temps| && c.temps[x].float == c.temps[y].float
    requires |a.reg| == |c.temps| && a.reg[x].Some? && a.reg[y].Some?
    ensures a.reg[x] != a.reg[y]
  {
    var g := GraphOf(c.temps, k, c.adj, c.forb);
    if c.Node(x) && c.Node(y) {
      assert y in g.adj[x];
      assert C.Differ(a.reg, x, y);
    } else if c.Node(x) {
      PinnedForbids(c, k, a, x, y);
    } else if c.Node(y) {
      PinnedForbids(c, k, a, y, x);
    } else {
      InBank(c, k, a, x);
      InBank(c, k, a, y);
    }
  }

  lemma PinnedForbids(c: ColorGraph, k: Banks, a: C.Alloc, x: nat, y: nat)
    requires Coloured(c, k, a) && (x, y) in c.clash && c.Node(x) && c.SameClass(x, y) && c.temps[y].fixed.Some?
    ensures |a.reg| == |c.temps| && (a.reg[x].Some? ==> a.reg[x] != a.reg[y])
  {
    InBank(c, k, a, y);
    var r := c.temps[y].fixed.value;
    assert c.Pinned(x, r, y);
    assert c.Forbidden(c.clash, c.clob, x, r);
    assert C.RegOk(GraphOf(c.temps, k, c.adj, c.forb), a.reg, x);
  }

  lemma ClobberAvoided(c: ColorGraph, k: Banks, a: C.Alloc, p: (nat, nat))
    requires Coloured(c, k, a) && p in c.clob && p.0 < |c.temps| && PinSafe(c.temps, p)
    ensures Home(a)(p.0) != Reg(p.1)
  {
    InBank(c, k, a, p.0);
    assert c.Forbidden(c.clash, c.clob, p.0, p.1);
    assert C.RegOk(GraphOf(c.temps, k, c.adj, c.forb), a.reg, p.0);
  }

  // ----- the outcome of allocation -----

  /** Every instruction's clashing temporaries are apart, but for the pinned operands of
      an assembly that may share. */
  ghost predicate Apart(f: Func, rpo: seq<nat>, outs: seq<set<nat>>, loc: nat -> Loc) {
    forall i, k :: AtInstr(f, rpo, outs, i, k) ==> Separated(loc, f.blocks[rpo[i]].instrs[k], LiveAfter(f, rpo, outs, i, k))
  }

  /** The allocated function: the original with its calls wrapped, and a home for every
      temporary that keeps clashing ones apart. */
  ghost predicate Allocated(f: Func, n: nat, preserved: set<nat>, rpo: seq<nat>, ins: seq<set<nat>>, outs: seq<set<nat>>, a: C.Alloc, s: Saved) {
    && IsRpo(G(f), f.start, rpo) && IsLiveness(f, rpo, ins, outs) && BlocksFit(f, rpo, outs)
    && (forall i :: 0 <= i < |rpo| ==> outs[rpo[i]] <= Upto(n))
    && Apart(f, rpo, outs, Home(a)) && C.SlotsOk(a) && |a.reg| == n
    && (forall t :: 0 <= t < n ==> a.reg[t].Some? != a.slot[t].Some?)
    && SavesInserted(f, rpo, outs, a.reg, preserved, a.spillBytes, s)
  }

  /** What the clobber walk reports is in range. */
  lemma ClobberInRange(f: Func, rpo: seq<nat>, outs: seq<set<nat>>, n: nat, p: (nat, nat))
    requires Clobber(f, rpo, outs, p) && Allocatable(f, n) && |outs| == |f.blocks|
    requires forall i :: 0 <= i < |rpo| ==> rpo[i] < |f.blocks| && outs[rpo[i]] <= Upto(n)
    ensures p.0 < n
  {
    hide RawFrom, ClobberAt, BlockBelow, ClobberFrom, BlockClobber;
    var i :| 0 <= i < |rpo| && rpo[i] < |f.blocks| && rpo[i] < |outs| && BlockClobber(f.blocks[rpo[i]], outs[rpo[i]], p);
    BlockClobberInRange(f.blocks[rpo[i]], outs[rpo[i]], n, p);
  }

  lemma BlockClobberInRange(b: Block, out: set<nat>, n: nat, p: (nat, nat))
    requires BlockClobber(b, out, p) && BlockBelow(b, n) && out <= Upto(n)
    ensures p.0 < n
  {
    hide RawFrom;
    var k: nat :| ClobberIndex(b.instrs, End(b, out), k, p);
    RawBelow(b.instrs, k + 1, End(b, out), n);
    assert InstrBelow(b.instrs[k], n);
  }

  lemma HomesApart(f: Func, rpo: seq<nat>, outs: seq<set<nat>>, c: ColorGraph, k: Banks, a: C.Alloc)
    requires Coloured(c, k, a) && PinnedApart(f, rpo, outs, c.temps) && AllPinsMarked(f, c.temps)
    requires Allocatable(f, |c.temps|) && |outs| == |f.blocks|
    requires forall i :: 0 <= i < |rpo| ==> rpo[i] < |f.blocks| && outs[rpo[i]] <= Upto(|c.temps|)
    requires forall p :: p in c.clash <==> Clash(f, rpo, outs, p)
    requires forall p :: p in c.clob <==> Clobber(f, rpo, outs, p)
    ensures Apart(f, rpo, outs, Home(a))
  {
    hide Coloured, Clash, Clobber, Allocatable, Separated, LiveAfter, PinnedApart;
    forall i, x | AtInstr(f, rpo, outs, i, x)
      ensures Separated(Home(a), f.blocks[rpo[i]].instrs[x], LiveAfter(f, rpo, outs, i, x))
    {
      InstrApart(f, rpo, outs, c, k, a, i, x);
    }
  }

  lemma InstrApart(f: Func, rpo: seq<nat>, outs: seq<set<nat>>, c: ColorGraph, k: Banks, a: C.Alloc, i: nat, x: nat)
    requires Coloured(c, k, a) && PinnedApart(f, rpo, outs, c.temps) && AllPinsMarked(f, c.temps)
    requires Allocatable(f, |c.temps|) && |outs| == |f.blocks| && AtInstr(f, rpo, outs, i, x)
    requires forall j :: 0 <= j < |rpo| ==> rpo[j] < |f.blocks| && outs[rpo[j]] <= Upto(|c.temps|)
    requires forall p :: p in c.clash <==> Clash(f, rpo, outs, p)
    requires forall p :: p in c.clob <==> Clobber(f, rpo, outs, p)
    ensures Separated(Home(a), f.blocks[rpo[i]].instrs[x], LiveAfter(f, rpo, outs, i, x))
  {
    hide Coloured, Clash, Clobber, Allocatable, ClashAt, ClobberAt, BesideAt, LiveAfter, AllPinsMarked;
    var in_, raw := f.blocks[rpo[i]].instrs[x], LiveAfter(f, rpo, outs, i, x);
    forall p | ClashAt(in_, raw, p) && !Tied(in_, raw, p)
      ensures Home(a)(p.0) != Home(a)(p.1)
    {
      ClashReported(f, rpo, outs, i, x, p);
      UntiedPinsDiffer(f, rpo, outs, c.temps, i, x, p);
      ClashApart(c, k, a, p);
    }
    forall p | ClobberAt(in_, raw, p)
      ensures Home(a)(p.0) != Reg(p.1)
    {
      ClobberReported(f, rpo, outs, i, x, p);
      assert PinSafe(c.temps, p);
      ClobberInRange(f, rpo, outs, |c.temps|, p);
      ClobberAvoided(c, k, a, p);
    }
  }

  lemma ClashReported(f: Func, rpo: seq<nat>, outs: seq<set<nat>>, i: nat, x: nat, p: (nat, nat))
    requires AtInstr(f, rpo, outs, i, x) && ClashAt(f.blocks[rpo[i]].instrs[x], LiveAfter(f, rpo, outs, i, x), p)
    ensures Clash(f, rpo, outs, p)
  {
    hide ClashAt, RawFrom;
    var b, out := f.blocks[rpo[i]], outs[rpo[i]];
    assert ClashIndex(b.instrs, End(b, out), x, p);
    assert BlockClash(b, out, p);
  }

  lemma ClobberReported(f: Func, rpo: seq<nat>, outs: seq<set<nat>>, i: nat, x: nat, p: (nat, nat))
    requires AtInstr(f, rpo, outs, i, x) && ClobberAt(f.blocks[rpo[i]].instrs[x], LiveAfter(f, rpo, outs, i, x), p)
    ensures Clobber(f, rpo, outs, p)
  {
    hide ClobberAt, RawFrom;
    var b, out := f.blocks[rpo[i]], outs[rpo[i]];
    assert ClobberIndex(b.instrs, End(b, out), x, p);
    assert BlockClobber(b, out, p);
  }

  /** A clashing pair that may not share a register is not pinned to one. */
  lemma UntiedPinsDiffer(f: Func, rpo: seq<nat>, outs: seq<set<nat>>, temps: seq<TempInfo>, i: nat, x: nat, p: (nat, nat))
    requires PinnedApart(f, rpo, outs, temps) && AllPinsMarked(f, temps) && AtInstr(f, rpo, outs, i, x)
    requires ClashAt(f.blocks[rpo[i]].instrs[x], LiveAfter(f, rpo, outs, i, x), p)
    requires !Tied(f.blocks[rpo[i]].instrs[x], LiveAfter(f, rpo, outs, i, x), p)
    ensures PinsDiffer(temps, p)
  {
    hide LiveAfter;
    var in_, raw := f.blocks[rpo[i]].instrs[x], LiveAfter(f, rpo, outs, i, x);
    if BesideAt(in_, raw, p) {
    } else {
      ClashOnlyAsm(in_, raw, p);
      assert PinsMarked(in_, temps);
    }
  }

  /** Temporaries that clash without being wanted at once are an assembly's operands. */
  lemma ClashOnlyAsm(in_: Instr, raw: set<nat>, p: (nat, nat))
    requires ClashAt(in_, raw, p) && !BesideAt(in_, raw, p)
    ensures in_.op.Asm? && (p.0 in DefSeq(in_) || p.0 in UseSeq(in_)) && (p.1 in DefSeq(in_) || p.1 in UseSeq(in_))
  {
    hide Across;
    var d :| d in DefSeq(in_) && PairOf(p, d, ClashSet(in_, raw));
    assert !PairOf(p, d, Across(in_, raw) + Set(DefSeq(in_)));
  }

  /** The one failure: a managed reference pinned to a register that a call it lives
      across may destroy. */
  ghost predicate GcPinnedAt(temps: seq<TempInfo>, preserved: set<nat>, ins: seq<Instr>, end: set<nat>, k: nat, t: nat) {
    && k < |ins| && t < |temps| && temps[t].gcRef && temps[t].fixed.Some? && temps[t].fixed.value !in preserved
    && ins[k].op.Call? && !ins[k].op.tail && t in RawFrom(ins, k + 1, end) && t !in DefSeq(ins[k])
  }

  ghost predicate GcPinned(f: Func, rpo: seq<nat>, outs: seq<set<nat>>, temps: seq<TempInfo>, preserved: set<nat>) {
    exists i, k, t :: 0 <= i < |rpo| && rpo[i] < |f.blocks| && rpo[i] < |outs|
                      && GcPinnedAt(temps, preserved, f.blocks[rpo[i]].instrs, End(f.blocks[rpo[i]], outs[rpo[i]]), k, t)
  }

  /** A managed reference the call would have to save is a pinned one: the others held
      across a call are on the stack. */
  lemma SavedRefIsPinned(f: Func, rpo: seq<nat>, outs: seq<set<nat>>, c: ColorGraph, k: Banks, a: C.Alloc, preserved: set<nat>, i: nat, x: nat, t: nat)
    requires Coloured(c, k, a) && i < |rpo| && rpo[i] < |f.blocks| && |outs| == |f.blocks| && x < |f.blocks[rpo[i]].instrs|
    requires forall u: nat :: u in c.gc <==> Held(f, rpo, outs, u) && u < |c.temps| && c.temps[u].gcRef
    requires t < |c.temps| && c.temps[t].gcRef
    ensures SavedAt(a.reg, preserved, f.blocks[rpo[i]].instrs[x], RawFrom(f.blocks[rpo[i]].instrs, x + 1, End(f.blocks[rpo[i]], outs[rpo[i]])), t)
            <==> GcPinnedAt(c.temps, preserved, f.blocks[rpo[i]].instrs, End(f.blocks[rpo[i]], outs[rpo[i]]), x, t)
  {
    var ins, end := f.blocks[rpo[i]].instrs, End(f.blocks[rpo[i]], outs[rpo[i]]);
    InBank(c, k, a, t);
    if HeldAt(ins[x], RawFrom(ins, x + 1, end), t) && c.temps[t].fixed.None? {
      assert HeldIndex(ins, end, x, t);
      assert BlockHeld(f.blocks[rpo[i]], outs[rpo[i]], t);
      assert Held(f, rpo, outs, t);
      SpilledNotSaved(c, k, a, t);
    }
  }

  lemma SpilledNotSaved(c: ColorGraph, k: Banks, a: C.Alloc, t: nat)
    requires Coloured(c, k, a) && t < |c.temps| && t in c.gc && c.temps[t].fixed.None?
    ensures t < |a.reg| && a.reg[t].None?
  {
    InBank(c, k, a, t);
  }

  lemma FailsWhenPinned(f: Func, rpo: seq<nat>, outs: seq<set<nat>>, c: ColorGraph, k: Banks, a: C.Alloc, preserved: set<nat>)
    requires Coloured(c, k, a) && BlocksFit(f, rpo, outs) && |a.reg| == |c.temps|
    requires forall u: nat :: u in c.gc <==> Held(f, rpo, outs, u) && u < |c.temps| && c.temps[u].gcRef
    ensures (exists i :: 0 <= i < |rpo| && BlockGcSaved(a.reg, GcRefs(c.temps), preserved, f.blocks[rpo[i]], outs[rpo[i]]))
            <==> GcPinned(f, rpo, outs, c.temps, preserved)
  {
    hide Coloured, GcPinnedAt, SavedAt, Held, RawFrom, End;
    forall i | 0 <= i < |rpo| && BlockGcSaved(a.reg, GcRefs(c.temps), preserved, f.blocks[rpo[i]], outs[rpo[i]])
      ensures GcPinned(f, rpo, outs, c.temps, preserved)
    {
      var b, out := f.blocks[rpo[i]], outs[rpo[i]];
      var x :| 0 <= x < |b.instrs| && GcSaved(a.reg, GcRefs(c.temps), preserved, b.instrs, End(b, out), x);
      var t :| 0 <= t < |a.reg| && GcRefs(c.temps)[t] && SavedAt(a.reg, preserved, b.instrs[x], RawFrom(b.instrs, x + 1, End(b, out)), t);
      SavedRefIsPinned(f, rpo, outs, c, k, a, preserved, i, x, t);
    }
    if GcPinned(f, rpo, outs, c.temps, preserved) {
      var i, x: nat, t: nat :| 0 <= i < |rpo| && rpo[i] < |f.blocks| && rpo[i] < |outs|
                      && GcPinnedAt(c.temps, preserved, f.blocks[rpo[i]].instrs, End(f.blocks[rpo[i]], outs[rpo[i]]), x, t);
      var b, out := f.blocks[rpo[i]], outs[rpo[i]];
      PinnedInRange(c.temps, preserved, b.instrs, End(b, out), x, t);
      SavedRefIsPinned(f, rpo, outs, c, k, a, preserved, i, x, t);
      assert GcSaved(a.reg, GcRefs(c.temps), preserved, b.instrs, End(b, out), x);
      assert BlockGcSaved(a.reg, GcRefs(c.temps), preserved, b, out);
    }
  }

  lemma PinnedInRange(temps: seq<TempInfo>, preserved: set<nat>, ins: seq<Instr>, end: set<nat>, k: nat, t: nat)
    requires GcPinnedAt(temps, preserved, ins, end, k, t)
    ensures k < |ins| && t < |temps| && temps[t].gcRef
  {
  }

  // ----- the pipeline -----

  lemma {:induction false} OutsBelow(f: Func, n: nat, rpo: seq<nat>, ins: seq<set<nat>>, outs: seq<set<nat>>, b: nat)
    requires Allocatable(f, n) && IsLiveness(f, rpo, ins, outs) && b in rpo && b < |f.blocks|
    ensures outs[b] <= Upto(n)
  {
    forall t | t in outs[b]
      ensures t < n
    {
      var p :| LiveVia(f, p, t) && p[0] == b;
      var last := f.blocks[p[|p| - 1]];
      assert BlockBelow(last, n) && last.phis == [];
      assert !EdgeUse(f, p[|p| - 2], p[|p| - 1], t);
      assert Exposed(last, t);
      if i: nat :| ReadFirst(last.instrs, i, t) {
        assert InstrBelow(last.instrs[i], n);
      }
    }
  }

  lemma TempsAreBelow(f: Func, n: nat)
    requires Allocatable(f, n)
    ensures TempsBelow(f, n)
  {
    forall b | 0 <= b < |f.blocks|
      ensures BlockTempsBelow(f.blocks[b], n)
    {
      assert BlockBelow(f.blocks[b], n);
      forall i, t | 0 <= i < |f.blocks[b].instrs| && (t in UseSeq(f.blocks[b].instrs[i]) || t in DefSeq(f.blocks[b].instrs[i]))
        ensures t < n
      {
        assert InstrBelow(f.blocks[b].instrs[i], n);
      }
    }
  }

  /** Colours the interference graph of the function. */
  method ColorAlloc(f: Func, temps: seq<TempInfo>, k: Banks, w: C.Weights, rpo: seq<nat>, outs: seq<set<nat>>)
    returns (a: C.Alloc, c: ColorGraph)
    requires Allocatable(f, |temps|) && BanksOk(temps, k) && BlocksFit(f, rpo, outs)
    requires forall i :: 0 <= i < |rpo| ==> outs[rpo[i]] <= Upto(|temps|)
    requires C.WeightsFit(GraphOf(temps, k, [], []), w)
    ensures c.temps == temps && Coloured(c, k, a)
    ensures forall p :: p in c.clash <==> Clash(f, rpo, outs, p)
    ensures forall p :: p in c.clob <==> Clobber(f, rpo, outs, p)
    ensures forall t: nat :: t in c.gc <==> Held(f, rpo, outs, t) && t < |temps| && temps[t].gcRef
  {
    c := new ColorGraph(temps);
    c.Build(f, rpo, outs);
    GraphValid(c, k);
    var g := GraphOf(temps, k, c.adj, c.forb);
    ghost var stack;
    a, stack := C.AssignAmd64(g, w, Fixed(temps), c.gc, seq(|temps|, _ => 8));
  }

  /** Allocates registers for a lowered function. */
  method RegAlloc(f: Func, temps: seq<TempInfo>, k: Banks, w: C.Weights, preserved: set<nat>)
    returns (r: Option<(C.Alloc, Saved)>, ghost rpo: seq<nat>, ghost ins: seq<set<nat>>, ghost outs: seq<set<nat>>)
    requires Allocatable(f, |temps|) && BanksOk(temps, k) && C.WeightsFit(GraphOf(temps, k, [], []), w)
    ensures IsRpo(G(f), f.start, rpo) && IsLiveness(f, rpo, ins, outs)
    ensures r.None? <==> GcPinned(f, rpo, outs, temps, preserved)
    ensures r.Some? && PinnedApart(f, rpo, outs, temps) && AllPinsMarked(f, temps) ==> Allocated(f, |temps|, preserved, rpo, ins, outs, r.value.0, r.value.1)
  {
    hide IsRpo, IsLiveness, PinnedApart, AllPinsMarked, Apart, Coloured, SavesInserted, GcPinned, C.SlotsOk, C.WeightsFit;
    var cfg := new CFG.Build(Exec(f), Synthetic(f), f.start);
    var order := cfg.rpo;
    TempsAreBelow(f, |temps|);
    var liveOuts;
    liveOuts, ins := LiveOuts(f, order, |temps|);
    rpo, outs := order, liveOuts;
    Fits(f, |temps|, rpo, ins, outs);
    var a, c := ColorAlloc(f, temps, k, w, order, liveOuts);
    ColouredSizes(c, k, a);
    var s := InsertCallerSaves(f, order, liveOuts, a.reg, GcRefs(temps), preserved, a.spillBytes);
    FailsWhenPinned(f, rpo, outs, c, k, a, preserved);
    if s.None? {
      return None, rpo, ins, outs;
    }
    if PinnedApart(f, rpo, outs, temps) && AllPinsMarked(f, temps) {
      HomesApart(f, rpo, outs, c, k, a);
    }
    r := Some((a, s.value));
  }

  lemma Fits(f: Func, n: nat, rpo: seq<nat>, ins: seq<set<nat>>, outs: seq<set<nat>>)
    requires Allocatable(f, n) && IsRpo(G(f), f.start, rpo) && IsLiveness(f, rpo, ins, outs)
    ensures BlocksFit(f, rpo, outs) && forall i :: 0 <= i < |rpo| ==> outs[rpo[i]] <= Upto(n)
  {
    FullWellFormed(Exec(f), Synthetic(f));
    forall i | 0 <= i < |rpo|
      ensures rpo[i] < |f.blocks| && outs[rpo[i]] <= Upto(n)
    {
      assert rpo[i] in rpo;
      ReachInRange(G(f), f.start.value, rpo[i]);
      OutsBelow(f, n, rpo, ins, outs, rpo[i]);
    }
  }

  lemma ColouredSizes(c: ColorGraph, k: Banks, a: C.Alloc)
    requires Coloured(c, k, a)
    ensures |a.reg| == |a.slot| == |c.temps| && C.SlotsOk(a)
    ensures forall t :: 0 <= t < |a.reg| ==> a.reg[t].Some? != a.slot[t].Some?
  {
    forall t | 0 <= t < |a.reg|
      ensures a.reg[t].Some? != a.slot[t].Some?
    {
      InBank(c, k, a, t);
    }
  }

  // ----- whole runs -----

  /** About to run a block, or stopped at the end of one. */
  datatype Point<S> = Running(block: nat, state: S) | Stopped(block: nat, state: S)

  /** One block over temporaries, then its terminator. */
  function NextT<V, M>(sem: Sem<V, M>, f: Func, p: Point<TState<V, M>>): Point<TState<V, M>> {
    if p.Stopped? || p.block >= |f.blocks| then Stopped(p.block, p.state)
    else
      var b := f.blocks[p.block];
      var st := ExecT(sem, b.instrs, p.state);
      Goto(b, p.block, sem.branch(p.block, Read(st.env, TermUses(b)), st.mem), st)
  }

  /** One block on the machine. */
  function NextM<V, M>(sem: Sem<V, M>, preserved: set<nat>, loc: nat -> Loc, f: Func, p: Point<MState<V, M>>): Point<MState<V, M>> {
    if p.Stopped? || p.block >= |f.blocks| then Stopped(p.block, p.state)
    else
      var b := f.blocks[p.block];
      var ms := ExecM(sem, preserved, loc, b.instrs, p.state);
      Goto(b, p.block, sem.branch(p.block, ReadLocs(ms.store, loc, TermUses(b)), ms.mem), ms)
  }

  function Goto<S>(b: Block, here: nat, i: nat, s: S): Point<S> {
    if i < |b.succs| && b.succs[i].Some? then Running(b.succs[i].value, s) else Stopped(here, s)
  }

  function RunT<V, M>(sem: Sem<V, M>, f: Func, n: nat, p: Point<TState<V, M>>): Point<TState<V, M>> {
    if n == 0 then p else NextT(sem, f, RunT(sem, f, n - 1, p))
  }

  function RunM<V, M>(sem: Sem<V, M>, preserved: set<nat>, loc: nat -> Loc, f: Func, n: nat, p: Point<MState<V, M>>): Point<MState<V, M>> {
    if n == 0 then p else NextM(sem, preserved, loc, f, RunM(sem, preserved, loc, f, n - 1, p))
  }

  /** Both executions are at the same place, with the same memory and the same value in
      every live temporary; once stopped, in every operand of the final terminator. */
  ghost predicate SamePoint<V, M>(f: Func, loc: nat -> Loc, p: Point<TState<V, M>>, q: Point<MState<V, M>>) {
    && p.Running? == q.Running? && p.block == q.block && p.block < |f.blocks| && p.state.mem == q.state.mem
    && (p.Running? ==> forall t :: LiveIn(f, p.block, t) ==> q.state.store(loc(t)) == p.state.env(t))
    && (p.Stopped? ==> forall t :: t in TermUses(f.blocks[p.block]) ==> q.state.store(loc(t)) == p.state.env(t))
  }

  /** Lowering's promises, block by block. */
  ghost predicate AllLowered(f: Func, rpo: seq<nat>, outs: seq<set<nat>>) {
    forall i :: 0 <= i < |rpo| && rpo[i] < |f.blocks| && rpo[i] < |outs| ==>
      Lowered(f.blocks[rpo[i]].instrs, End(f.blocks[rpo[i]], outs[rpo[i]]))
  }

  lemma InstrSeparated(f: Func, rpo: seq<nat>, outs: seq<set<nat>>, loc: nat -> Loc, i: nat, k: nat)
    requires Apart(f, rpo, outs, loc) && i < |rpo| && rpo[i] < |f.blocks| && |outs| == |f.blocks| && k < |f.blocks[rpo[i]].instrs|
    ensures Separated(loc, f.blocks[rpo[i]].instrs[k], RawFrom(f.blocks[rpo[i]].instrs, k + 1, End(f.blocks[rpo[i]], outs[rpo[i]])))
  {
    hide Separated, RawFrom;
    assert AtInstr(f, rpo, outs, i, k);
  }

  lemma HomesPlaced(a: C.Alloc, m: map<nat, nat>, bytes: nat)
    requires C.SlotsOk(a) && SlotsExtend(m, a.spillBytes, bytes) && forall t :: 0 <= t < |a.reg| ==> a.reg[t].Some? != a.slot[t].Some?
    ensures Placed(Home(a), a.reg, m)
  {
    forall u: nat | u < |a.slot| && a.slot[u].Some?
      ensures a.slot[u].value < a.spillBytes
    {
      assert C.SlotAt(a, u);
    }
  }

  lemma BlockPlacement(f: Func, n: nat, preserved: set<nat>, rpo: seq<nat>, ins: seq<set<nat>>, outs: seq<set<nat>>, a: C.Alloc, s: Saved, i: nat)
    requires Allocatable(f, n) && Allocated(f, n, preserved, rpo, ins, outs, a, s) && i < |rpo|
    ensures rpo[i] < |f.blocks| && |outs| == |f.blocks|
    ensures Placement(Home(a), a.reg, s.slots, f.blocks[rpo[i]].instrs, End(f.blocks[rpo[i]], outs[rpo[i]]))
  {
    hide IsRpo, IsLiveness, Apart, Separated, C.SlotsOk, SlotsExtend, Home, Placed;
    var b, out := f.blocks[rpo[i]], outs[rpo[i]];
    HomesPlaced(a, s.slots, s.spillBytes);
    forall k | 0 <= k < |b.instrs|
      ensures Separated(Home(a), b.instrs[k], RawFrom(b.instrs, k + 1, End(b, out)))
    {
      InstrSeparated(f, rpo, outs, Home(a), i, k);
    }
    assert BlockBelow(b, n);
    forall k | 0 <= k <= |b.instrs|
      ensures RawFrom(b.instrs, k, End(b, out)) <= Upto(n)
    {
      RawBelow(b.instrs, k, End(b, out), n);
    }
  }

  /** One whole block: agreement on entry gives agreement on what is live at its end. */
  lemma BlockAgrees<V, M>(sem: Sem<V, M>, f: Func, n: nat, preserved: set<nat>, rpo: seq<nat>, ins: seq<set<nat>>, outs: seq<set<nat>>,
                          a: C.Alloc, s: Saved, i: nat, st: TState<V, M>, ms: MState<V, M>)
    requires Allocatable(f, n) && Allocated(f, n, preserved, rpo, ins, outs, a, s) && AllLowered(f, rpo, outs) && i < |rpo|
    requires rpo[i] < |f.blocks| && |s.func.blocks| == |f.blocks| == |outs| && st.mem == ms.mem
    requires forall t :: LiveIn(f, rpo[i], t) ==> ms.store(Home(a)(t)) == st.env(t)
    ensures Sim(End(f.blocks[rpo[i]], outs[rpo[i]]), Home(a), ExecT(sem, f.blocks[rpo[i]].instrs, st),
                ExecM(sem, preserved, Home(a), s.func.blocks[rpo[i]].instrs, ms))
  {
    hide Placement, Lowered, ExecT, ExecM, Home, Apart, IsRpo, LiveIn, LiveFrom, Wrap, C.SlotsOk, SlotsExtend;
    var b, out := f.blocks[rpo[i]], outs[rpo[i]];
    var end := End(b, out);
    BlockPlacement(f, n, preserved, rpo, ins, outs, a, s, i);
    assert rpo[i] in rpo;
    forall t | t in LiveFrom(b.instrs, 0, end)
      ensures LiveIn(f, rpo[i], t)
    {
      EntryIsLive(f, n, rpo, ins, outs, rpo[i], t);
    }
    assert BlockSlotted(b, out, a.reg, preserved, s.slots);
    WrapAgrees(sem, preserved, Home(a), a.reg, s.slots, b.instrs, end, 0, st, ms);
    assert b.instrs[0..] == b.instrs;
  }

  lemma EntryIsLive(f: Func, n: nat, rpo: seq<nat>, ins: seq<set<nat>>, outs: seq<set<nat>>, b: nat, t: nat)
    requires Allocatable(f, n) && IsLiveness(f, rpo, ins, outs) && b in rpo && b < |f.blocks|
    requires t in LiveFrom(f.blocks[b].instrs, 0, End(f.blocks[b], outs[b]))
    ensures LiveIn(f, b, t)
  {
    hide LiveFrom, Exposed, Passes;
    assert f.blocks[b].phis == [];
    assert BlockIn(f.blocks[b], outs[b]) == LiveFrom(f.blocks[b].instrs, 0, End(f.blocks[b], outs[b]));
    BlockInIs(f.blocks[b], outs[b], t);
  }

  lemma SuccessorLive(f: Func, rpo: seq<nat>, ins: seq<set<nat>>, outs: seq<set<nat>>, b: nat, x: nat, t: nat)
    requires WellFormedFunc(f) && IsRpo(G(f), f.start, rpo) && IsLiveness(f, rpo, ins, outs) && b in rpo && b < |f.blocks|
    requires x < |f.blocks[b].succs| && f.blocks[b].succs[x].Some?
    ensures f.blocks[b].succs[x].value in rpo && f.blocks[b].succs[x].value < |f.blocks|
    ensures LiveIn(f, f.blocks[b].succs[x].value, t) ==> t in outs[b]
  {
    hide LiveIn, LiveOut;
    var c := f.blocks[b].succs[x].value;
    assert Exec(f)[b][x] == Some(c);
    assert Edge(Exec(f), b, c) && Edge(G(f), b, c);
    ReachStep(G(f), f.start.value, b, c);
    if LiveIn(f, c, t) {
      LiveInSuccessor(f, b, c, t);
    }
  }

  lemma NextSame<V, M>(sem: Sem<V, M>, f: Func, n: nat, preserved: set<nat>, rpo: seq<nat>, ins: seq<set<nat>>, outs: seq<set<nat>>,
                       a: C.Alloc, s: Saved, p: Point<TState<V, M>>, q: Point<MState<V, M>>)
    requires Allocatable(f, n) && Allocated(f, n, preserved, rpo, ins, outs, a, s) && AllLowered(f, rpo, outs)
    requires SamePoint(f, Home(a), p, q) && p.block in rpo
    ensures SamePoint(f, Home(a), NextT(sem, f, p), NextM(sem, preserved, Home(a), s.func, q)) && NextT(sem, f, p).block in rpo
  {
    hide ExecT, ExecM, Home, Apart, LiveIn, Wrap, C.SlotsOk, SlotsExtend, IsRpo, AllLowered, Allocatable, IsLiveness, BlockSlotted, WellFormedFunc;
    if p.Running? {
      var i :| 0 <= i < |rpo| && rpo[i] == p.block;
      BlockAgrees(sem, f, n, preserved, rpo, ins, outs, a, s, i, p.state, q.state);
      var b := f.blocks[p.block];
      assert s.func.blocks[p.block] == Wrapped(a.reg, preserved, s.slots, b, outs[p.block]);
      var st, ms := ExecT(sem, b.instrs, p.state), ExecM(sem, preserved, Home(a), s.func.blocks[p.block].instrs, q.state);
      SameReads(st.env, ms.store, Home(a), TermUses(b));
      var x := sem.branch(p.block, Read(st.env, TermUses(b)), st.mem);
      GotoSame(f, n, preserved, rpo, ins, outs, a, s, p.block, x, st, ms);
    }
  }

  lemma GotoSame<V, M>(f: Func, n: nat, preserved: set<nat>, rpo: seq<nat>, ins: seq<set<nat>>, outs: seq<set<nat>>,
                       a: C.Alloc, s: Saved, here: nat, x: nat, st: TState<V, M>, ms: MState<V, M>)
    requires Allocatable(f, n) && Allocated(f, n, preserved, rpo, ins, outs, a, s) && here in rpo && here < |f.blocks| == |outs|
    requires Sim(End(f.blocks[here], outs[here]), Home(a), st, ms)
    ensures SamePoint(f, Home(a), Goto(f.blocks[here], here, x, st), Goto(f.blocks[here], here, x, ms))
    ensures Goto(f.blocks[here], here, x, st).block in rpo
  {
    hide Home, Apart, LiveIn, C.SlotsOk, SavesInserted, IsRpo, IsLiveness, WellFormedFunc;
    if x < |f.blocks[here].succs| && f.blocks[here].succs[x].Some? {
      SuccessorLive(f, rpo, ins, outs, here, x, 0);
      forall t
        ensures LiveIn(f, f.blocks[here].succs[x].value, t) ==> t in outs[here]
      {
        SuccessorLive(f, rpo, ins, outs, here, x, t);
      }
    }
  }

  /** Register allocation preserves meaning: run for any number of blocks, under any
      behaviour of the operations, branches and destroyed registers, the allocated
      function is where the original is, with the same memory and every live
      temporary's value in its home. */
  lemma {:induction false} RunsAgree<V, M>(sem: Sem<V, M>, f: Func, n: nat, preserved: set<nat>, rpo: seq<nat>, ins: seq<set<nat>>, outs: seq<set<nat>>,
                                           a: C.Alloc, s: Saved, steps: nat, p: Point<TState<V, M>>, q: Point<MState<V, M>>)
    requires Allocatable(f, n) && Allocated(f, n, preserved, rpo, ins, outs, a, s) && AllLowered(f, rpo, outs)
    requires SamePoint(f, Home(a), p, q) && Reachable(f, p.block)
    ensures SamePoint(f, Home(a), RunT(sem, f, steps, p), RunM(sem, preserved, Home(a), s.func, steps, q))
    ensures Reachable(f, RunT(sem, f, steps, p).block)
  {
    hide SamePoint, Allocated, AllLowered, Allocatable, NextT, NextM, Home, Reachable;
    if steps > 0 {
      RunsAgree(sem, f, n, preserved, rpo, ins, outs, a, s, steps - 1, p, q);
      var p', q' := RunT(sem, f, steps - 1, p), RunM(sem, preserved, Home(a), s.func, steps - 1, q);
      InOrder(f, n, preserved, rpo, ins, outs, a, s, p'.block);
      NextSame(sem, f, n, preserved, rpo, ins, outs, a, s, p', q');
      InOrder(f, n, preserved, rpo, ins, outs, a, s, NextT(sem, f, p').block);
    }
  }

  lemma InOrder(f: Func, n: nat, preserved: set<nat>, rpo: seq<nat>, ins: seq<set<nat>>, outs: seq<set<nat>>, a: C.Alloc, s: Saved, b: nat)
    requires Allocated(f, n, preserved, rpo, ins, outs, a, s)
    ensures b in rpo <==> Reachable(f, b)
  {
  }
}
