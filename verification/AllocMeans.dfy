/** What register allocation comes to, said of the instructions' fields: which
    temporaries have homes of their own, what the code before and after does, and what
    is asked of it. */
module AllocMeans {
  import opened Graphs
  import opened Cfg
  import opened Ir
  import opened Liveness
  import opened Interference
  import opened Machine
  import opened CallerSaves
  import opened RegSim
  import opened RegAlloc
  import C = Colouring

  // ----- homes -----

  lemma HomeIs(a: C.Alloc, t: nat)
    requires t < |a.reg| == |a.slot|
    ensures a.reg[t].Some? ==> Home(a)(t) == Reg(a.reg[t].value)
    ensures a.reg[t].None? && a.slot[t].Some? ==> Home(a)(t) == Slot(a.slot[t].value)
  {
  }

  lemma BesideIs(in_: Instr, after: set<nat>, p: (nat, nat))
    ensures BesideAt(in_, after, p) <==>
            (p.0 != p.1 &&
             exists d, x :: (p == (d, x) || p == (x, d)) && (in_.to == Temp(d) || Temp(d) in in_.defs) &&
               (|| in_.to == Temp(x) || Temp(x) in in_.defs
                || (x in after && !((in_.op.Copy? || in_.op.Par? || in_.op.Arg?) && in_.to.Temp? && in_.args == [Temp(x)]))))
  {
    hide Across, DefSeq;
    forall t
      ensures t in DefSeq(in_) <==> in_.to == Temp(t) || Temp(t) in in_.defs
      ensures t in Across(in_, after) <==>
              t in after && !((in_.op.Copy? || in_.op.Par? || in_.op.Arg?) && in_.to.Temp? && in_.args == [Temp(t)])
    {
      ReadsAndWrites(in_, t);
      AcrossIs(in_, after, t);
    }
    var s := Across(in_, after) + Set(DefSeq(in_));
    forall d | d in DefSeq(in_) && PairOf(p, d, s)
      ensures p == (d, if p.0 == d && p.1 in s then p.1 else p.0) || p == (if p.0 == d && p.1 in s then p.1 else p.0, d)
    {
      assert p == (p.0, p.1);
    }
    forall d, x | p.0 != p.1 && (p == (d, x) || p == (x, d)) && d in DefSeq(in_) && x in s
      ensures PairOf(p, d, s)
    {
    }
  }

  /** Where clashing temporaries are apart, a result's home is not that of another result,
      nor that of anything live after the instruction but what it copies, nor, for an
      inline assembly, that of an operand, pinned ones aside. A temporary an assembly
      touches or that lives across it is in no register it names. */
  lemma ResultsApart(f: Func, rpo: seq<nat>, outs: seq<set<nat>>, loc: nat -> Loc, i: nat, k: nat, d: nat, x: nat)
    requires Apart(f, rpo, outs, loc)
    requires i < |rpo| && rpo[i] < |f.blocks| && rpo[i] < |outs| && k < |f.blocks[rpo[i]].instrs| && d != x
    requires f.blocks[rpo[i]].instrs[k].to == Temp(d) || Temp(d) in f.blocks[rpo[i]].instrs[k].defs
    ensures var in_ := f.blocks[rpo[i]].instrs[k]; in_.to == Temp(x) || Temp(x) in in_.defs ==> loc(d) != loc(x)
    ensures var b, in_ := f.blocks[rpo[i]], f.blocks[rpo[i]].instrs[k];
            (x in RawFrom(b.instrs, k + 1, outs[rpo[i]] + Set(TermUses(b))) &&
             !((in_.op.Copy? || in_.op.Par? || in_.op.Arg?) && in_.to.Temp? && in_.args == [Temp(x)])) ==>
            loc(d) != loc(x)
    ensures var in_ := f.blocks[rpo[i]].instrs[k];
            in_.op.Asm? && (Temp(x) in in_.args || in_.context == Temp(x)) && !(d in in_.op.pins && x in in_.op.pins) ==> loc(d) != loc(x)
  {
    hide RawFrom, ClashAt, BesideAt;
    var b, in_ := f.blocks[rpo[i]], f.blocks[rpo[i]].instrs[k];
    var raw := LiveAfter(f, rpo, outs, i, k);
    assert AtInstr(f, rpo, outs, i, k) && Separated(loc, in_, raw);
    ClashIs(in_, raw, (d, x));
    BesideIs(in_, raw, (d, x));
  }

  lemma NotClobbered(f: Func, rpo: seq<nat>, outs: seq<set<nat>>, loc: nat -> Loc, i: nat, k: nat, t: nat, r: nat)
    requires Apart(f, rpo, outs, loc)
    requires i < |rpo| && rpo[i] < |f.blocks| && rpo[i] < |outs| && k < |f.blocks[rpo[i]].instrs|
    requires var in_ := f.blocks[rpo[i]].instrs[k]; in_.op.Asm? && r in in_.op.clobbers
    requires var b, in_ := f.blocks[rpo[i]], f.blocks[rpo[i]].instrs[k];
             t in RawFrom(b.instrs, k + 1, outs[rpo[i]] + Set(TermUses(b))) || Temp(t) in in_.args || in_.context == Temp(t) ||
             in_.to == Temp(t) || Temp(t) in in_.defs
    ensures loc(t) != Reg(r)
  {
    hide RawFrom, ClobberAt;
    var in_, raw := f.blocks[rpo[i]].instrs[k], LiveAfter(f, rpo, outs, i, k);
    assert AtInstr(f, rpo, outs, i, k) && Separated(loc, in_, raw);
    ClobberIs(in_, raw, t, r);
  }

  // ----- what is asked of the code -----

  /** No instruction of the caller-save pass; a move has one result, a lifetime marker
      none; an inline assembly names no temporary as operand and result. */
  lemma OrdinaryIs(in_: Instr)
    ensures Ordinary(in_) <==>
            (&& !in_.op.Spill? && !in_.op.Reload?
             && ((in_.op.Copy? || in_.op.Par? || in_.op.Arg?) && in_.to.Temp? && |in_.args| == 1 && in_.args[0].Temp? ==> in_.defs == [])
             && (in_.op.LifeStart? || in_.op.LifeEnd? ==> forall d :: in_.to != Temp(d) && Temp(d) !in in_.defs)
             && (in_.op.Asm? ==> forall d :: in_.to == Temp(d) || Temp(d) in in_.defs ==> Temp(d) !in in_.args && in_.context != Temp(d)))
  {
    NotMoved(in_);
    forall t
      ensures t in DefSeq(in_) <==> in_.to == Temp(t) || Temp(t) in in_.defs
      ensures t in UseSeq(in_) <==> Temp(t) in in_.args || in_.context == Temp(t)
    {
      ReadsAndWrites(in_, t);
    }
    if DefSeq(in_) != [] {
      assert DefSeq(in_)[0] in DefSeq(in_);
    }
  }

  /** Lowered code is ordinary instructions; what arguments set up for a call is not live
      after it; nothing but its results is live after a tail call. */
  lemma LoweredIf(ins: seq<Instr>, end: set<nat>)
    requires forall i :: 0 <= i < |ins| ==> Ordinary(ins[i])
    requires forall j, e, d :: 0 <= j < e < |ins| && ins[e].op.Call? && !ins[e].op.tail && (forall i :: j <= i < e ==> ins[i].op.Arg?) &&
                               (ins[j].to == Temp(d) || Temp(d) in ins[j].defs) ==>
               d !in RawFrom(ins, e + 1, end) || ins[e].to == Temp(d) || Temp(d) in ins[e].defs
    requires forall i, t :: 0 <= i < |ins| && ins[i].op.Call? && ins[i].op.tail && t in LiveFrom(ins, i + 1, end) ==>
               ins[i].to == Temp(t) || Temp(t) in ins[i].defs
    ensures Lowered(ins, end)
  {
    hide Ordinary, RawFrom, LiveFrom, DefSeq, ArgsDie;
    forall j: nat, e: nat | RunTo(ins, j, e)
      ensures ArgsDie(ins, end, j, e)
    {
      ArgsDieIs(ins, end, j, e);
    }
    forall i, t | 0 <= i < |ins| && ins[i].op.Call? && ins[i].op.tail && t in LiveFrom(ins, i + 1, end)
      ensures t in DefSeq(ins[i])
    {
      ReadsAndWrites(ins[i], t);
    }
  }

  lemma LoweredMeans(ins: seq<Instr>, end: set<nat>)
    requires Lowered(ins, end)
    ensures forall i :: 0 <= i < |ins| ==> Ordinary(ins[i])
    ensures forall j, e, d :: 0 <= j < e < |ins| && ins[e].op.Call? && !ins[e].op.tail && (forall i :: j <= i < e ==> ins[i].op.Arg?) &&
                              (ins[j].to == Temp(d) || Temp(d) in ins[j].defs) ==>
              d !in RawFrom(ins, e + 1, end) || ins[e].to == Temp(d) || Temp(d) in ins[e].defs
    ensures forall i, t :: 0 <= i < |ins| && ins[i].op.Call? && ins[i].op.tail && t in LiveFrom(ins, i + 1, end) ==>
              ins[i].to == Temp(t) || Temp(t) in ins[i].defs
  {
    hide Ordinary, RawFrom, LiveFrom, DefSeq, ArgsDie;
    forall j, e, d | 0 <= j < e < |ins| && ins[e].op.Call? && !ins[e].op.tail && (forall i :: j <= i < e ==> ins[i].op.Arg?) &&
                     (ins[j].to == Temp(d) || Temp(d) in ins[j].defs)
      ensures d !in RawFrom(ins, e + 1, end) || ins[e].to == Temp(d) || Temp(d) in ins[e].defs
    {
      assert RunTo(ins, j, e);
      ArgsDieIs(ins, end, j, e);
    }
    forall i, t | 0 <= i < |ins| && ins[i].op.Call? && ins[i].op.tail && t in LiveFrom(ins, i + 1, end)
      ensures ins[i].to == Temp(t) || Temp(t) in ins[i].defs
    {
      ReadsAndWrites(ins[i], t);
    }
  }

  lemma ArgsDieIs(ins: seq<Instr>, end: set<nat>, j: nat, e: nat)
    requires j < e < |ins|
    ensures ArgsDie(ins, end, j, e) <==>
            forall d :: ins[j].to == Temp(d) || Temp(d) in ins[j].defs ==>
              d !in RawFrom(ins, e + 1, end) || ins[e].to == Temp(d) || Temp(d) in ins[e].defs
  {
    hide RawFrom, DefSeq;
    forall t
      ensures t in DefSeq(ins[j]) <==> ins[j].to == Temp(t) || Temp(t) in ins[j].defs
      ensures t in DefSeq(ins[e]) <==> ins[e].to == Temp(t) || Temp(t) in ins[e].defs
    {
      ReadsAndWrites(ins[j], t);
      ReadsAndWrites(ins[e], t);
    }
  }

  // ----- what runs -----

  /** A block's instructions run one after the other. */
  lemma RunsInOrder<V, M>(sem: Sem<V, M>, preserved: set<nat>, loc: nat -> Loc, s: seq<Instr>, in_: Instr, st: TState<V, M>, ms: MState<V, M>)
    ensures ExecT(sem, [], st) == st && ExecM(sem, preserved, loc, [], ms) == ms
    ensures ExecT(sem, s + [in_], st) == StepT(sem, in_, ExecT(sem, s, st))
    ensures ExecM(sem, preserved, loc, s + [in_], ms) == StepM(sem, preserved, loc, in_, ExecM(sem, preserved, loc, s, ms))
  {
    ExecTConcat(sem, s, [in_], st);
    ExecMConcat(sem, preserved, loc, s, [in_], ms);
    OneRuns(sem, preserved, loc, in_, ExecT(sem, s, st), ExecM(sem, preserved, loc, s, ms));
  }

  /** A running point runs its block and goes to the successor the branch picks from the
      terminator's operands; it stops where there is none. Stopped, it stays. */
  lemma PointMoves<V, M>(sem: Sem<V, M>, preserved: set<nat>, loc: nat -> Loc, f: Func, b: nat, st: TState<V, M>, ms: MState<V, M>)
    requires b < |f.blocks|
    ensures var end := ExecT(sem, f.blocks[b].instrs, st);
            var xs := Temps([f.blocks[b].jmpArg] + f.blocks[b].jmpArgs);
            var x := sem.branch(b, seq(|xs|, i requires 0 <= i < |xs| => end.env(xs[i])), end.mem);
            NextT(sem, f, Running(b, st)) ==
              if x < |f.blocks[b].succs| && f.blocks[b].succs[x].Some? then Running(f.blocks[b].succs[x].value, end) else Stopped(b, end)
    ensures var end := ExecM(sem, preserved, loc, f.blocks[b].instrs, ms);
            var xs := Temps([f.blocks[b].jmpArg] + f.blocks[b].jmpArgs);
            var x := sem.branch(b, seq(|xs|, i requires 0 <= i < |xs| => end.store(loc(xs[i]))), end.mem);
            NextM(sem, preserved, loc, f, Running(b, ms)) ==
              if x < |f.blocks[b].succs| && f.blocks[b].succs[x].Some? then Running(f.blocks[b].succs[x].value, end) else Stopped(b, end)
    ensures NextT(sem, f, Stopped(b, st)) == Stopped(b, st) && NextM(sem, preserved, loc, f, Stopped(b, ms)) == Stopped(b, ms)
  {
    var xs := Temps([f.blocks[b].jmpArg] + f.blocks[b].jmpArgs);
    assert TermUses(f.blocks[b]) == xs;
    var st', ms' := ExecT(sem, f.blocks[b].instrs, st), ExecM(sem, preserved, loc, f.blocks[b].instrs, ms);
    assert Read(st'.env, xs) == seq(|xs|, i requires 0 <= i < |xs| => st'.env(xs[i]));
    assert ReadLocs(ms'.store, loc, xs) == seq(|xs|, i requires 0 <= i < |xs| => ms'.store(loc(xs[i])));
  }

  lemma RunGoesOn<V, M>(sem: Sem<V, M>, preserved: set<nat>, loc: nat -> Loc, f: Func, n: nat, p: Point<TState<V, M>>, q: Point<MState<V, M>>)
    ensures RunT(sem, f, 0, p) == p && RunT(sem, f, n + 1, p) == NextT(sem, f, RunT(sem, f, n, p))
    ensures RunM(sem, preserved, loc, f, 0, q) == q && RunM(sem, preserved, loc, f, n + 1, q) == NextM(sem, preserved, loc, f, RunM(sem, preserved, loc, f, n, q))
  {
  }

  /** From one reachable block, with one memory and every temporary live there at home,
      the allocated function comes after any number of blocks to where the original does,
      with the same memory and every temporary live there at home; stopped, with the
      terminator's operands at home. */
  lemma {:induction false} RunsTogether<V, M>(sem: Sem<V, M>, f: Func, n: nat, preserved: set<nat>, rpo: seq<nat>, ins: seq<set<nat>>, outs: seq<set<nat>>,
                           a: C.Alloc, s: Saved, steps: nat, b: nat, st: TState<V, M>, ms: MState<V, M>,
                           p: Point<TState<V, M>>, q: Point<MState<V, M>>)
    requires Allocatable(f, n) && Allocated(f, n, preserved, rpo, ins, outs, a, s) && AllLowered(f, rpo, outs)
    requires Reachable(f, b) && b < |f.blocks| && st.mem == ms.mem
    requires forall t :: Exposed(f.blocks[b], t) || (Passes(f.blocks[b], t) && LiveOut(f, b, t)) ==> ms.store(Home(a)(t)) == st.env(t)
    requires p == RunT(sem, f, steps, Running(b, st)) && q == RunM(sem, preserved, Home(a), s.func, steps, Running(b, ms))
    ensures p.Running? == q.Running? && p.block == q.block && p.block < |f.blocks| && p.state.mem == q.state.mem
    ensures p.Running? ==> forall t :: Exposed(f.blocks[p.block], t) || (Passes(f.blocks[p.block], t) && LiveOut(f, p.block, t)) ==>
                             q.state.store(Home(a)(t)) == p.state.env(t)
    ensures p.Stopped? ==> forall t :: f.blocks[p.block].jmpArg == Temp(t) || Temp(t) in f.blocks[p.block].jmpArgs ==>
                             q.state.store(Home(a)(t)) == p.state.env(t)
  {
    hide Allocatable, Allocated, AllLowered, Home, RunT, RunM, Exposed, Passes, LiveOut;
    assert SamePoint(f, Home(a), Running(b, st), Running(b, ms));
    RunsAgree(sem, f, n, preserved, rpo, ins, outs, a, s, steps, Running(b, st), Running(b, ms));
    PointsMean(f, Home(a), p, q);
  }

  lemma PointsMean<V, M>(f: Func, loc: nat -> Loc, p: Point<TState<V, M>>, q: Point<MState<V, M>>)
    requires SamePoint(f, loc, p, q)
    ensures p.Running? == q.Running? && p.block == q.block && p.block < |f.blocks| && p.state.mem == q.state.mem
    ensures p.Running? ==> forall t :: Exposed(f.blocks[p.block], t) || (Passes(f.blocks[p.block], t) && LiveOut(f, p.block, t)) ==>
                             q.state.store(loc(t)) == p.state.env(t)
    ensures p.Stopped? ==> forall t :: f.blocks[p.block].jmpArg == Temp(t) || Temp(t) in f.blocks[p.block].jmpArgs ==>
                             q.state.store(loc(t)) == p.state.env(t)
  {
    hide Exposed, Passes, LiveOut, TermUses;
    forall t
      ensures t in TermUses(f.blocks[p.block]) <==> f.blocks[p.block].jmpArg == Temp(t) || Temp(t) in f.blocks[p.block].jmpArgs
    {
      BlockReadsAndWrites(f.blocks[p.block], t);
    }
  }
}
