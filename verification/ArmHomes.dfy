/** What the arm64 allocation comes to (arm64/gcalloc.go): the homes it gives out keep
    apart what every instruction needs apart, so that one step over them agrees with one
    step over temporaries. */
module ArmHomes {
  import opened Graphs
  import opened Ir
  import opened Liveness
  import opened Interference
  import opened Machine
  import opened RegAlloc
  import opened ArmBuild
  import A = ArmAlloc
  import C = Colouring

  // ----- registers, on the fields -----

  /** A result's register is not that of another result of its class, nor that of anything
      of its class live after the instruction but what it copies, nor, for an inline
      assembly and for what still reads its operands after writing, that of an operand of
      its class; unless the calling convention pins both. */
  lemma RegistersApart(tg: Target, t: A.Temps, f: Func, rpo: seq<nat>, outs: seq<set<nat>>, reg: seq<Option<nat>>, i: nat, k: nat, d: nat, x: nat)
    requires Separate(tg, t, f, rpo, outs, reg)
    requires i < |rpo| && rpo[i] < |f.blocks| && rpo[i] < |outs| && k < |f.blocks[rpo[i]].instrs| && d != x
    requires d < |reg| && x < |reg| && |reg| == |t.float| == |t.fixed| && t.float[d] == t.float[x]
    requires reg[d].Some? && reg[x].Some? && !(t.fixed[d].Some? && t.fixed[x].Some?)
    requires f.blocks[rpo[i]].instrs[k].to == Temp(d) || Temp(d) in f.blocks[rpo[i]].instrs[k].defs
    requires var b, in_ := f.blocks[rpo[i]], f.blocks[rpo[i]].instrs[k];
             || in_.to == Temp(x) || Temp(x) in in_.defs
             || (x in RawFrom(b.instrs, k + 1, outs[rpo[i]] + Set(TermUses(b))) &&
                 !((in_.op.Copy? || in_.op.Par? || in_.op.Arg?) && in_.to.Temp? && in_.args == [Temp(x)]))
             || ((in_.op.Asm? || tg.holds(in_)) && (Temp(x) in in_.args || in_.context == Temp(x)))
    ensures reg[d] != reg[x]
  {
    hide RawFrom, DefSeq, UseSeq, Across;
    var in_, after := f.blocks[rpo[i]].instrs[k], LiveAfter(f, rpo, outs, i, k);
    ReadsAndWrites(in_, d);
    ReadsAndWrites(in_, x);
    AcrossIs(in_, after, x);
    assert AtInstr(f, rpo, outs, i, k) && EdgeAt(tg, in_, after, (d, x));
    assert A.KeptApart(t, reg, (d, x));
  }

  /** A temporary the convention does not pin is in no register an inline assembly around
      it names, a vector in none across a call, and a managed reference held at a call or
      safepoint in none at all. */
  lemma RegistersAvoided(tg: Target, t: A.Temps, f: Func, rpo: seq<nat>, outs: seq<set<nat>>, reg: seq<Option<nat>>, i: nat, k: nat, x: nat, r: nat)
    requires Avoided(tg, t, f, rpo, outs, reg) && OnStack(tg, t, f, rpo, outs, reg)
    requires i < |rpo| && rpo[i] < |f.blocks| && rpo[i] < |outs| && k < |f.blocks[rpo[i]].instrs|
    requires x < |reg| == |t.fixed| && t.fixed[x].None?
    ensures var b, in_ := f.blocks[rpo[i]], f.blocks[rpo[i]].instrs[k];
            var live := x in RawFrom(b.instrs, k + 1, outs[rpo[i]] + Set(TermUses(b)));
            && ((in_.op.Asm? && r in in_.op.clobbers &&
                 (live || Temp(x) in in_.args || in_.context == Temp(x) || in_.to == Temp(x) || Temp(x) in in_.defs)) ==> reg[x] != Some(r))
            && (in_.op.Call? && tg.vector(x) && r in tg.vectorRegs && live ==> reg[x] != Some(r))
            && ((in_.op.Call? || in_.op.Safepoint?) && tg.gcRef(x) && live ==> reg[x].None?)
  {
    hide RawFrom, DefSeq, UseSeq, Across, ClobberAt, HeldAt;
    var in_, after := f.blocks[rpo[i]].instrs[k], LiveAfter(f, rpo, outs, i, k);
    ClobberIs(in_, after, x, r);
    HeldIs(in_, after, x);
    AcrossIs(in_, after, x);
    assert AtInstr(f, rpo, outs, i, k) && Free(t, reg, x);
    assert ForbidAt(tg, in_, after, (x, r)) ==> reg[x] != Some(r);
    assert RefAt(tg, in_, after, x) ==> reg[x].None?;
  }

  // ----- homes -----

  /** What the allocation gave out, every temporary having a place: pinned ones their
      register, registers of one file to its class, private slots. */
  ghost predicate Homed(t: A.Temps, temps: seq<TempInfo>, floatRegs: set<nat>, a: C.Alloc) {
    && |a.reg| == |temps| == |t.float| == |t.fixed| && C.SlotsOk(a)
    && (forall x :: 0 <= x < |temps| ==> temps[x].float == t.float[x] && temps[x].fixed == t.fixed[x])
    && (forall x :: 0 <= x < |temps| ==> a.reg[x].Some? != a.slot[x].Some? || (t.fixed[x].Some? && a.reg[x].Some?))
    && (forall x :: 0 <= x < |temps| ==> t.fixed[x].Some? ==> a.reg[x] == t.fixed[x])
    && (forall x :: 0 <= x < |temps| && a.reg[x].Some? ==> (a.reg[x].value in floatRegs <==> t.float[x]))
  }

  /** So it is what the allocator returns, when no temporary is recomputed at each use
      and its pools and pinned registers keep to the register files. */
  lemma AllocationHomed(t: A.Temps, temps: seq<TempInfo>, pool: seq<seq<nat>>, floatRegs: set<nat>, a: C.Alloc)
    requires |a.reg| == |temps| == |t.float| == |t.fixed| == |pool| && C.SlotsOk(a)
    requires forall x :: 0 <= x < |temps| ==> temps[x].float == t.float[x] && temps[x].fixed == t.fixed[x] && a.width[x] > 0
    requires forall x :: 0 <= x < |temps| ==> if t.fixed[x].Some? then a.reg[x] == t.fixed[x] else C.Housed(a, x)
    requires forall x :: 0 <= x < |temps| && t.fixed[x].None? && a.reg[x].Some? ==> a.reg[x].value in pool[x]
    requires forall x, r :: 0 <= x < |temps| && (r in pool[x] || t.fixed[x] == Some(r)) ==> (r in floatRegs <==> t.float[x])
    ensures Homed(t, temps, floatRegs, a)
  {
    hide C.SlotAt, C.SlotsDisjoint;
    forall x | 0 <= x < |temps|
      ensures a.reg[x].Some? ==> (a.reg[x].value in floatRegs <==> t.float[x])
      ensures a.reg[x].Some? != a.slot[x].Some? || (t.fixed[x].Some? && a.reg[x].Some?)
    {
      if a.reg[x].Some? {
        assert a.reg[x].value in pool[x] || t.fixed[x] == Some(a.reg[x].value);
      }
    }
  }

  /** Different temporaries whose registers differ when they have one class have different
      homes. */
  lemma HomesDiffer(t: A.Temps, temps: seq<TempInfo>, floatRegs: set<nat>, a: C.Alloc, d: nat, x: nat)
    requires Homed(t, temps, floatRegs, a) && d < |temps| && x < |temps| && d != x
    requires A.KeptApart(t, a.reg, (d, x)) && PinsDiffer(temps, (d, x))
    ensures Home(a)(d) != Home(a)(x)
  {
    if a.reg[d].None? && a.reg[x].None? {
      SlotsApart(a, d, x);
    }
  }

  lemma InstrHomes(tg: Target, t: A.Temps, f: Func, rpo: seq<nat>, outs: seq<set<nat>>, temps: seq<TempInfo>, floatRegs: set<nat>, a: C.Alloc, i: nat, k: nat)
    requires Homed(t, temps, floatRegs, a) && Separate(tg, t, f, rpo, outs, a.reg) && Avoided(tg, t, f, rpo, outs, a.reg)
    requires WalkOk(f, rpo, outs, |temps|) && PinnedApart(f, rpo, outs, temps) && AllPinsMarked(f, temps) && AtInstr(f, rpo, outs, i, k)
    ensures Separated(Home(a), f.blocks[rpo[i]].instrs[k], LiveAfter(f, rpo, outs, i, k))
  {
    hide Homed, WalkOk, PinnedApart, AllPinsMarked, LiveAfter, Home, Separate, Avoided, ClashAt, ClobberAt, Tied, InstrBelow;
    var in_, after := f.blocks[rpo[i]].instrs[k], LiveAfter(f, rpo, outs, i, k);
    AfterBelow(f, rpo, outs, |temps|, i, k);
    forall p | ClashAt(in_, after, p) && !Tied(in_, after, p)
      ensures Home(a)(p.0) != Home(a)(p.1)
    {
      UntiedPinsDiffer(f, rpo, outs, temps, i, k, p);
      var d, x := ClashEdge(tg, in_, after, p);
      EdgeBelow(tg, in_, after, |temps|, (d, x));
      EdgeKept(tg, t, f, rpo, outs, a.reg, i, k, (d, x));
      HomesDiffer(t, temps, floatRegs, a, d, x);
    }
    forall p | ClobberAt(in_, after, p)
      ensures Home(a)(p.0) != Reg(p.1)
    {
      ClobberReported(f, rpo, outs, i, k, p);
      ClobberSafe(f, rpo, outs, temps, p);
      ClobberTemp(in_, after, |temps|, p);
      ClobberKept(tg, t, f, rpo, outs, temps, floatRegs, a, i, k, p);
    }
  }

  lemma ClashEdge(tg: Target, in_: Instr, after: set<nat>, p: (nat, nat)) returns (d: nat, x: nat)
    requires ClashAt(in_, after, p)
    ensures d != x && (p == (d, x) || p == (x, d)) && EdgeAt(tg, in_, after, (d, x))
  {
    hide DefSeq, UseSeq, Across;
    d :| d in DefSeq(in_) && PairOf(p, d, ClashSet(in_, after));
    x := if p.0 == d && p.1 in ClashSet(in_, after) then p.1 else p.0;
    assert p == (p.0, p.1);
  }

  lemma EdgeKept(tg: Target, t: A.Temps, f: Func, rpo: seq<nat>, outs: seq<set<nat>>, reg: seq<Option<nat>>, i: nat, k: nat, p: (nat, nat))
    requires Separate(tg, t, f, rpo, outs, reg) && AtInstr(f, rpo, outs, i, k)
    requires EdgeAt(tg, f.blocks[rpo[i]].instrs[k], LiveAfter(f, rpo, outs, i, k), p)
    ensures A.KeptApart(t, reg, p)
  {
    hide EdgeAt, LiveAfter, A.KeptApart;
  }

  lemma ClobberSafe(f: Func, rpo: seq<nat>, outs: seq<set<nat>>, temps: seq<TempInfo>, p: (nat, nat))
    requires PinnedApart(f, rpo, outs, temps) && Clobber(f, rpo, outs, p)
    ensures PinSafe(temps, p)
  {
    hide Clobber, LiveAfter;
  }

  lemma ClobberTemp(in_: Instr, after: set<nat>, n: nat, p: (nat, nat))
    requires ClobberAt(in_, after, p) && InstrBelow(in_, n) && after <= Upto(n)
    ensures p.0 < n
  {
    hide DefSeq, UseSeq;
  }

  lemma ClobberKept(tg: Target, t: A.Temps, f: Func, rpo: seq<nat>, outs: seq<set<nat>>, temps: seq<TempInfo>, floatRegs: set<nat>, a: C.Alloc,
                    i: nat, k: nat, p: (nat, nat))
    requires Homed(t, temps, floatRegs, a) && Avoided(tg, t, f, rpo, outs, a.reg) && AtInstr(f, rpo, outs, i, k) && p.0 < |temps|
    requires ClobberAt(f.blocks[rpo[i]].instrs[k], LiveAfter(f, rpo, outs, i, k), p) && PinSafe(temps, p)
    ensures Home(a)(p.0) != Reg(p.1)
  {
    hide LiveAfter, ClobberAt, C.SlotAt, C.SlotsDisjoint;
    assert p == (p.0, p.1);
    assert ForbidAt(tg, f.blocks[rpo[i]].instrs[k], LiveAfter(f, rpo, outs, i, k), (p.0, p.1));
    if t.fixed[p.0].None? {
      assert Free(t, a.reg, p.0);
      assert a.reg[p.0] != Some(p.1);
    } else {
      assert a.reg[p.0] == temps[p.0].fixed != Some(p.1);
    }
    if a.reg[p.0].Some? {
      assert Home(a)(p.0) == Reg(a.reg[p.0].value);
    } else {
      assert a.slot[p.0].Some?;
    }
  }

  /** The arm64 homes keep apart what every reachable instruction needs apart. */
  lemma ArmApart(tg: Target, t: A.Temps, f: Func, rpo: seq<nat>, outs: seq<set<nat>>, temps: seq<TempInfo>, floatRegs: set<nat>, a: C.Alloc)
    requires Homed(t, temps, floatRegs, a) && Separate(tg, t, f, rpo, outs, a.reg) && Avoided(tg, t, f, rpo, outs, a.reg)
    requires WalkOk(f, rpo, outs, |temps|) && PinnedApart(f, rpo, outs, temps) && AllPinsMarked(f, temps)
    ensures Apart(f, rpo, outs, Home(a))
  {
    hide Homed, WalkOk, PinnedApart, AllPinsMarked, LiveAfter, Home, Separate, Avoided, Separated;
    forall i, k | AtInstr(f, rpo, outs, i, k)
      ensures Separated(Home(a), f.blocks[rpo[i]].instrs[k], LiveAfter(f, rpo, outs, i, k))
    {
      InstrHomes(tg, t, f, rpo, outs, temps, floatRegs, a, i, k);
    }
  }

  /** One instruction, over the arm64 homes and over temporaries: agreeing on what it
      needs and what stays live, the two agree afterwards on everything live that a call
      does not destroy. */
  lemma ArmStepAgrees<V, M>(sem: Sem<V, M>, preserved: set<nat>, tg: Target, t: A.Temps, f: Func, rpo: seq<nat>, outs: seq<set<nat>>,
                            temps: seq<TempInfo>, floatRegs: set<nat>, a: C.Alloc, i: nat, k: nat, live: set<nat>, st: TState<V, M>, ms: MState<V, M>)
    requires Homed(t, temps, floatRegs, a) && Separate(tg, t, f, rpo, outs, a.reg) && Avoided(tg, t, f, rpo, outs, a.reg)
    requires WalkOk(f, rpo, outs, |temps|) && PinnedApart(f, rpo, outs, temps) && AllPinsMarked(f, temps) && AtInstr(f, rpo, outs, i, k)
    requires Ordinary(f.blocks[rpo[i]].instrs[k]) && live <= LiveAfter(f, rpo, outs, i, k) && st.mem == ms.mem
    requires forall x :: x in live && f.blocks[rpo[i]].instrs[k].to != Temp(x) && Temp(x) !in f.blocks[rpo[i]].instrs[k].defs ==>
               ms.store(Home(a)(x)) == st.env(x)
    requires forall x :: Temp(x) in f.blocks[rpo[i]].instrs[k].args || f.blocks[rpo[i]].instrs[k].context == Temp(x) ==>
               ms.store(Home(a)(x)) == st.env(x)
    ensures var in_ := f.blocks[rpo[i]].instrs[k]; var st', ms' := StepT(sem, in_, st), StepM(sem, preserved, Home(a), in_, ms);
            st'.mem == ms'.mem &&
            forall x :: x in live && (in_.op.Call? && in_.to != Temp(x) && Temp(x) !in in_.defs ==>
                                        !(Home(a)(x).Reg? && Home(a)(x).r !in preserved)) ==>
              ms'.store(Home(a)(x)) == st'.env(x)
  {
    hide Homed, WalkOk, PinnedApart, AllPinsMarked, LiveAfter, Home, Separate, Avoided, Separated, StepT, StepM, DefSeq, UseSeq;
    var in_ := f.blocks[rpo[i]].instrs[k];
    InstrHomes(tg, t, f, rpo, outs, temps, floatRegs, a, i, k);
    forall x
      ensures x in DefSeq(in_) <==> in_.to == Temp(x) || Temp(x) in in_.defs
      ensures x in UseSeq(in_) <==> Temp(x) in in_.args || in_.context == Temp(x)
    {
      ReadsAndWrites(in_, x);
    }
    MarkerAlone(in_);
    StepAgrees(sem, preserved, Home(a), in_, live, LiveAfter(f, rpo, outs, i, k), st, ms);
  }

  lemma MarkerAlone(in_: Instr)
    requires Ordinary(in_)
    ensures in_.op.IsLifetime() ==> DefSeq(in_) == []
  {
  }
}
