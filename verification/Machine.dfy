/** Two executions of the same code: over unbounded temporaries, and over registers
    and stack slots where calls and inline assembly destroy registers. What an
    operation computes, where a branch goes and what a destroyed register holds are
    parameters, so the results hold for every one of them. */
module Machine {
  import opened Graphs
  import opened Ir
  import opened Liveness
  import opened Interference

  datatype Loc = Reg(r: nat) | Slot(s: nat)

  /** `eval` gives an instruction's k-th result and the new memory from the values it
      reads; `branch` picks a successor slot; `junk` is what a destroyed register
      holds, by instruction, memory and phase. */
  datatype Sem<!V, !M> = Sem(eval: (Instr, seq<V>, M) -> (nat -> V, M),
                             branch: (nat, seq<V>, M) -> nat,
                             junk: (Instr, M, nat, Loc) -> V)

  datatype TState<!V, !M> = TState(env: nat -> V, mem: M)
  datatype MState<!V, !M> = MState(store: Loc -> V, mem: M)

  function Put<K(==, !new), V>(m: K -> V, k: K, v: V): (r: K -> V)
    ensures r(k) == v && forall x :: x != k ==> r(x) == m(x)
  {
    x => if x == k then v else m(x)
  }

  function Read<V>(env: nat -> V, ts: seq<nat>): (vs: seq<V>)
    ensures |vs| == |ts| && forall i :: 0 <= i < |ts| ==> vs[i] == env(ts[i])
  {
    seq(|ts|, i requires 0 <= i < |ts| => env(ts[i]))
  }

  function ReadLocs<V>(store: Loc -> V, loc: nat -> Loc, ts: seq<nat>): (vs: seq<V>)
    ensures |vs| == |ts| && forall i :: 0 <= i < |ts| ==> vs[i] == store(loc(ts[i]))
  {
    seq(|ts|, i requires 0 <= i < |ts| => store(loc(ts[i])))
  }

  function Write<V>(env: nat -> V, ts: seq<nat>, vals: nat -> V, k: nat): nat -> V
    decreases |ts| - k
  {
    if k >= |ts| then env else Write(Put<nat, V>(env, ts[k], vals(k)), ts, vals, k + 1)
  }

  function WriteLocs<V>(store: Loc -> V, loc: nat -> Loc, ts: seq<nat>, vals: nat -> V, k: nat): Loc -> V
    decreases |ts| - k
  {
    if k >= |ts| then store else WriteLocs(Put(store, loc(ts[k]), vals(k)), loc, ts, vals, k + 1)
  }

  /** The locations hit hold junk. */
  function Garble<V, M>(sem: Sem<V, M>, in_: Instr, mem: M, phase: nat, store: Loc -> V, hit: Loc -> bool): (g: Loc -> V)
    ensures forall l: Loc :: !hit(l) ==> g(l) == store(l)
  {
    (l: Loc) => if hit(l) then sem.junk(in_, mem, phase, l) else store(l)
  }

  /** A call destroys every register its callee need not preserve. */
  predicate Destroyed(preserved: set<nat>, l: Loc) {
    l.Reg? && l.r !in preserved
  }

  predicate Clobbers(in_: Instr, l: Loc) {
    in_.op.Asm? && l.Reg? && l.r in in_.op.clobbers
  }

  /** An inline assembly may write an output before it reads its inputs, unless output
      and input are pinned to the one register. */
  predicate EarlyAt(loc: nat -> Loc, in_: Instr, d: nat, l: Loc) {
    && in_.op.Asm? && loc(d) == l
    && !(d in in_.op.pins && exists u :: u in UseSeq(in_) && u in in_.op.pins && loc(u) == l)
  }

  predicate Early(loc: nat -> Loc, in_: Instr, l: Loc) {
    exists d :: d in DefSeq(in_) && EarlyAt(loc, in_, d, l)
  }

  /** One instruction over temporaries. */
  function StepT<V, M>(sem: Sem<V, M>, in_: Instr, st: TState<V, M>): TState<V, M> {
    if in_.op.IsLifetime() then st
    else if MoveEnds(in_).Some? then
      st.(env := Put<nat, V>(st.env, MoveEnds(in_).value.0, st.env(MoveEnds(in_).value.1)))
    else
      var (res, mem) := sem.eval(in_, Read(st.env, UseSeq(in_)), st.mem);
      TState(Write(st.env, DefSeq(in_), res, 0), mem)
  }

  /** The store an operation's results are written over. */
  function After<V, M>(sem: Sem<V, M>, preserved: set<nat>, loc: nat -> Loc, in_: Instr, ms: MState<V, M>): Loc -> V {
    var before := Before(sem, loc, in_, ms);
    if in_.op.Asm? then Garble(sem, in_, ms.mem, 1, before, (l: Loc) => Clobbers(in_, l))
    else if in_.op.Call? then Garble(sem, in_, ms.mem, 2, before, (l: Loc) => Destroyed(preserved, l))
    else before
  }

  function Before<V, M>(sem: Sem<V, M>, loc: nat -> Loc, in_: Instr, ms: MState<V, M>): Loc -> V {
    if in_.op.Asm? then Garble(sem, in_, ms.mem, 0, ms.store, (l: Loc) => Clobbers(in_, l) || Early(loc, in_, l)) else ms.store
  }

  /** One instruction on the machine. A lifetime marker emits nothing. A call destroys
      the registers outside `preserved` after its operands are read. An inline assembly may
      write its clobbers before it reads its inputs, and its outputs too, save an output
      pinned to the register of an input. */
  function StepM<V, M>(sem: Sem<V, M>, preserved: set<nat>, loc: nat -> Loc, in_: Instr, ms: MState<V, M>): MState<V, M> {
    if in_.op.IsLifetime() then ms
    else if in_.op.Spill? && |in_.args| == 1 && in_.args[0].Temp? then
      ms.(store := Put(ms.store, Slot(in_.op.slot), ms.store(loc(in_.args[0].id))))
    else if in_.op.Reload? && in_.to.Temp? then
      ms.(store := Put(ms.store, loc(in_.to.id), ms.store(Slot(in_.op.slot))))
    else if MoveEnds(in_).Some? then
      ms.(store := Put(ms.store, loc(MoveEnds(in_).value.0), ms.store(loc(MoveEnds(in_).value.1))))
    else
      var (res, mem) := sem.eval(in_, ReadLocs(Before(sem, loc, in_, ms), loc, UseSeq(in_)), ms.mem);
      MState(WriteLocs(After(sem, preserved, loc, in_, ms), loc, DefSeq(in_), res, 0), mem)
  }

  /** The machine holds each of these temporaries' values where it was put. */
  ghost predicate Agree<V, M>(live: set<nat>, loc: nat -> Loc, st: TState<V, M>, ms: MState<V, M>) {
    forall t :: t in live ==> ms.store(loc(t)) == st.env(t)
  }

  // ----- one instruction -----

  ghost predicate DefsApart(loc: nat -> Loc, ts: seq<nat>) {
    forall a, b :: a in ts && b in ts && a != b ==> loc(a) != loc(b)
  }

  /** Results land in the right place: t holds the same value in both executions if it
      is written, or is away from everything written and held it before. */
  lemma {:induction false} WritesAgree<V>(env: nat -> V, store: Loc -> V, loc: nat -> Loc, ts: seq<nat>, vals: nat -> V, k: nat, t: nat)
    requires DefsApart(loc, ts) && k <= |ts|
    requires t in ts[k..] || store(loc(t)) == env(t)
    requires t in ts || forall d :: d in ts ==> loc(d) != loc(t)
    ensures WriteLocs(store, loc, ts, vals, k)(loc(t)) == Write(env, ts, vals, k)(t)
    decreases |ts| - k
  {
    if k < |ts| {
      assert ts[k..] == [ts[k]] + ts[k + 1..];
      assert ts[k] in ts;
      WritesAgree(Put<nat, V>(env, ts[k], vals(k)), Put(store, loc(ts[k]), vals(k)), loc, ts, vals, k + 1, t);
    }
  }

  lemma {:induction false} WritesElsewhere<V>(store: Loc -> V, loc: nat -> Loc, ts: seq<nat>, vals: nat -> V, k: nat, l: Loc)
    requires forall d :: d in ts ==> loc(d) != l
    ensures WriteLocs(store, loc, ts, vals, k)(l) == store(l)
    decreases |ts| - k
  {
    if k < |ts| {
      assert ts[k] in ts;
      WritesElsewhere(Put(store, loc(ts[k]), vals(k)), loc, ts, vals, k + 1, l);
    }
  }

  lemma {:induction false} WriteKeeps<V>(env: nat -> V, ts: seq<nat>, vals: nat -> V, k: nat, t: nat)
    requires t !in ts
    ensures Write(env, ts, vals, k)(t) == env(t)
    decreases |ts| - k
  {
    if k < |ts| {
      assert ts[k] in ts;
      WriteKeeps(Put<nat, V>(env, ts[k], vals(k)), ts, vals, k + 1, t);
    }
  }

  lemma SameReads<V>(env: nat -> V, store: Loc -> V, loc: nat -> Loc, ts: seq<nat>)
    requires forall t :: t in ts ==> store(loc(t)) == env(t)
    ensures ReadLocs(store, loc, ts) == Read(env, ts)
  {
    forall i | 0 <= i < |ts|
      ensures store(loc(ts[i])) == env(ts[i])
    {
      assert ts[i] in ts;
    }
  }

  /** An inline assembly's output and input in fixed registers, the input not wanted
      afterwards: these may share the register. */
  ghost predicate Tied(in_: Instr, raw: set<nat>, p: (nat, nat)) {
    in_.op.Asm? && p.0 in in_.op.pins && p.1 in in_.op.pins && !BesideAt(in_, raw, p)
  }

  /** What the interference graph guarantees about the locations at an instruction. */
  ghost predicate Separated(loc: nat -> Loc, in_: Instr, raw: set<nat>) {
    && (forall p :: ClashAt(in_, raw, p) && !Tied(in_, raw, p) ==> loc(p.0) != loc(p.1))
    && (forall p :: ClobberAt(in_, raw, p) ==> loc(p.0) != Reg(p.1))
  }

  /** A definition is away from the other definitions and from what is live across. */
  lemma DefAway(loc: nat -> Loc, in_: Instr, raw: set<nat>, d: nat, t: nat)
    requires Separated(loc, in_, raw) && d in DefSeq(in_) && d != t
    requires t in DefSeq(in_) || t in Across(in_, raw) || (in_.op.Asm? && t in UseSeq(in_) && !(d in in_.op.pins && t in in_.op.pins))
    ensures loc(d) != loc(t)
  {
    assert PairOf((d, t), d, ClashSet(in_, raw));
    assert ClashAt(in_, raw, (d, t));
    if t in DefSeq(in_) || t in Across(in_, raw) {
      assert PairOf((d, t), d, Across(in_, raw) + Set(DefSeq(in_)));
      assert BesideAt(in_, raw, (d, t));
    }
  }

  /** An ordinary instruction of the program: not inserted by the caller-save pass; a
      move has one result and a lifetime marker none; an inline assembly does not name one temporary as input and
      output. */
  ghost predicate Ordinary(in_: Instr) {
    && !in_.op.Spill? && !in_.op.Reload?
    && (MoveEnds(in_).Some? ==> in_.defs == []) && (in_.op.IsLifetime() ==> DefSeq(in_) == [])
    && (in_.op.Asm? ==> forall d :: d in DefSeq(in_) ==> d !in UseSeq(in_))
  }

  lemma MoveAgrees<V, M>(sem: Sem<V, M>, preserved: set<nat>, loc: nat -> Loc, in_: Instr, live: set<nat>, raw: set<nat>,
                         st: TState<V, M>, ms: MState<V, M>)
    requires Ordinary(in_) && MoveEnds(in_).Some? && Separated(loc, in_, raw) && live <= raw && st.mem == ms.mem
    requires Agree(Transfer(live, in_), loc, st, ms)
    ensures Agree(live, loc, StepT(sem, in_, st), StepM(sem, preserved, loc, in_, ms))
    ensures StepT(sem, in_, st).mem == StepM(sem, preserved, loc, in_, ms).mem
  {
    hide Separated;
    var (d, s) := MoveEnds(in_).value;
    assert Uses(in_)[0] == Temp(s);
    assert [in_.to] + in_.defs == [Temp(d)];
    assert forall t :: t in DefSeq(in_) <==> t == d;
    assert s in UseSeq(in_);
    forall t | t in live
      ensures StepM(sem, preserved, loc, in_, ms).store(loc(t)) == StepT(sem, in_, st).env(t)
    {
      if t != d && t != s {
        DefAway(loc, in_, raw, d, t);
      }
    }
  }

  /** What a step leaves in place: everything, except that a call leaves only its
      results and what is outside the registers it destroys. */
  ghost function Kept(preserved: set<nat>, loc: nat -> Loc, in_: Instr, live: set<nat>): (s: set<nat>)
    ensures forall t :: t in s <==> t in live && (in_.op.Call? ==> t in DefSeq(in_) || !Destroyed(preserved, loc(t)))
  {
    set t | t in live && (in_.op.Call? ==> t in DefSeq(in_) || !Destroyed(preserved, loc(t)))
  }

  /** The inputs an operation reads are intact, even after an early clobber. */
  lemma InputsAgree<V, M>(sem: Sem<V, M>, loc: nat -> Loc, in_: Instr, raw: set<nat>, env: nat -> V, store: Loc -> V, mem: M)
    requires Ordinary(in_) && Separated(loc, in_, raw) && in_.op.Asm?
    requires forall t :: t in UseSeq(in_) ==> store(loc(t)) == env(t)
    ensures ReadLocs(Garble(sem, in_, mem, 0, store, (l: Loc) => Clobbers(in_, l) || Early(loc, in_, l)), loc, UseSeq(in_)) == Read(env, UseSeq(in_))
  {
    var before := Garble(sem, in_, mem, 0, store, (l: Loc) => Clobbers(in_, l) || Early(loc, in_, l));
    forall t | t in UseSeq(in_)
      ensures before(loc(t)) == env(t)
    {
      UseAway(loc, in_, raw, t);
    }
    SameReads(env, before, loc, UseSeq(in_));
  }

  lemma UseAway(loc: nat -> Loc, in_: Instr, raw: set<nat>, t: nat)
    requires Ordinary(in_) && Separated(loc, in_, raw) && in_.op.Asm? && t in UseSeq(in_)
    ensures !Clobbers(in_, loc(t)) && !Early(loc, in_, loc(t))
  {
    if loc(t).Reg? && loc(t).r in in_.op.clobbers {
      assert ClobberAt(in_, raw, (t, loc(t).r));
    }
    forall d | d in DefSeq(in_)
      ensures !EarlyAt(loc, in_, d, loc(t))
    {
      if !(d in in_.op.pins && t in in_.op.pins) {
        DefAway(loc, in_, raw, d, t);
      }
    }
  }

  lemma LiveAway(loc: nat -> Loc, in_: Instr, raw: set<nat>, t: nat)
    requires Separated(loc, in_, raw) && MoveEnds(in_).None? && t in raw && t !in DefSeq(in_)
    ensures (forall d :: d in DefSeq(in_) ==> loc(d) != loc(t)) && (in_.op.Asm? ==> !Clobbers(in_, loc(t)))
  {
    if in_.op.Asm? && loc(t).Reg? && loc(t).r in in_.op.clobbers {
      assert ClobberAt(in_, raw, (t, loc(t).r));
    }
    forall d | d in DefSeq(in_)
      ensures loc(d) != loc(t)
    {
      DefAway(loc, in_, raw, d, t);
    }
  }

  lemma DefsAreApart(loc: nat -> Loc, in_: Instr, raw: set<nat>)
    requires Separated(loc, in_, raw)
    ensures DefsApart(loc, DefSeq(in_))
  {
    forall a, b | a in DefSeq(in_) && b in DefSeq(in_) && a != b
      ensures loc(a) != loc(b)
    {
      DefAway(loc, in_, raw, a, b);
    }
  }

  lemma UntouchedAfter<V, M>(sem: Sem<V, M>, preserved: set<nat>, loc: nat -> Loc, in_: Instr, ms: MState<V, M>, l: Loc)
    requires in_.op.Asm? ==> !Early(loc, in_, l) && !Clobbers(in_, l)
    requires in_.op.Call? ==> !Destroyed(preserved, l)
    ensures After(sem, preserved, loc, in_, ms)(l) == ms.store(l)
  {
  }

  lemma OperandsAgree<V, M>(sem: Sem<V, M>, loc: nat -> Loc, in_: Instr, live: set<nat>, raw: set<nat>, st: TState<V, M>, ms: MState<V, M>)
    requires Ordinary(in_) && !in_.op.IsLifetime() && Separated(loc, in_, raw)
    requires Agree(Transfer(live, in_), loc, st, ms)
    ensures ReadLocs(Before(sem, loc, in_, ms), loc, UseSeq(in_)) == Read(st.env, UseSeq(in_))
  {
    if in_.op.Asm? {
      InputsAgree(sem, loc, in_, raw, st.env, ms.store, ms.mem);
    } else {
      SameReads(st.env, ms.store, loc, UseSeq(in_));
    }
  }

  /** One instruction keeps the machine and the temporaries in agreement on what is
      live after it. */
  lemma StepAgrees<V, M>(sem: Sem<V, M>, preserved: set<nat>, loc: nat -> Loc, in_: Instr, live: set<nat>, raw: set<nat>,
                         st: TState<V, M>, ms: MState<V, M>)
    requires Ordinary(in_) && Separated(loc, in_, raw) && live <= raw && st.mem == ms.mem
    requires Agree(Transfer(live, in_), loc, st, ms)
    ensures Agree(Kept(preserved, loc, in_, live), loc, StepT(sem, in_, st), StepM(sem, preserved, loc, in_, ms))
    ensures StepT(sem, in_, st).mem == StepM(sem, preserved, loc, in_, ms).mem
  {
    if in_.op.IsLifetime() {
    } else if MoveEnds(in_).Some? {
      MoveAgrees(sem, preserved, loc, in_, live, raw, st, ms);
    } else {
      OperationAgrees(sem, preserved, loc, in_, live, raw, st, ms);
    }
  }

  lemma OperationAgrees<V, M>(sem: Sem<V, M>, preserved: set<nat>, loc: nat -> Loc, in_: Instr, live: set<nat>, raw: set<nat>,
                              st: TState<V, M>, ms: MState<V, M>)
    requires Ordinary(in_) && !in_.op.IsLifetime() && MoveEnds(in_).None?
    requires Separated(loc, in_, raw) && live <= raw && st.mem == ms.mem
    requires Agree(Transfer(live, in_), loc, st, ms)
    ensures Agree(Kept(preserved, loc, in_, live), loc, StepT(sem, in_, st), StepM(sem, preserved, loc, in_, ms))
    ensures StepT(sem, in_, st).mem == StepM(sem, preserved, loc, in_, ms).mem
  {
    hide Separated, ReadLocs, Read;
    OperandsAgree(sem, loc, in_, live, raw, st, ms);
    DefsAreApart(loc, in_, raw);
    var (res, mem) := sem.eval(in_, Read(st.env, UseSeq(in_)), st.mem);
    var after := After(sem, preserved, loc, in_, ms);
    assert StepM(sem, preserved, loc, in_, ms) == MState(WriteLocs(after, loc, DefSeq(in_), res, 0), mem);
    forall t | t in Kept(preserved, loc, in_, live)
      ensures StepM(sem, preserved, loc, in_, ms).store(loc(t)) == StepT(sem, in_, st).env(t)
    {
      if t !in DefSeq(in_) {
        LiveAway(loc, in_, raw, t);
        UntouchedAfter(sem, preserved, loc, in_, ms, loc(t));
      }
      WritesAgree(st.env, after, loc, DefSeq(in_), res, 0, t);
    }
  }

  /** A location the instruction neither writes nor destroys keeps its contents. */
  lemma StepLeaves<V, M>(sem: Sem<V, M>, preserved: set<nat>, loc: nat -> Loc, in_: Instr, ms: MState<V, M>, l: Loc)
    requires Ordinary(in_) && l.Slot? && forall d :: d in DefSeq(in_) ==> loc(d) != l
    ensures StepM(sem, preserved, loc, in_, ms).store(l) == ms.store(l)
  {
    if in_.op.IsLifetime() {
    } else if MoveEnds(in_).Some? {
      assert ([in_.to] + in_.defs)[0] == in_.to;
    } else {
      var after := After(sem, preserved, loc, in_, ms);
      var (res, mem) := sem.eval(in_, ReadLocs(Before(sem, loc, in_, ms), loc, UseSeq(in_)), ms.mem);
      WritesElsewhere(after, loc, DefSeq(in_), res, 0, l);
      UntouchedAfter(sem, preserved, loc, in_, ms, l);
    }
  }

  /** A temporary the instruction does not write keeps its value. */
  lemma StepKeepsTemp<V, M>(sem: Sem<V, M>, in_: Instr, st: TState<V, M>, t: nat)
    requires t !in DefSeq(in_)
    ensures StepT(sem, in_, st).env(t) == st.env(t)
  {
    if in_.op.IsLifetime() {
    } else if MoveEnds(in_).Some? {
      assert ([in_.to] + in_.defs)[0] == in_.to;
    } else {
      var (res, mem) := sem.eval(in_, Read(st.env, UseSeq(in_)), st.mem);
      WriteKeeps(st.env, DefSeq(in_), res, 0, t);
    }
  }

  // ----- on the fields -----

  lemma NotMoved(in_: Instr)
    ensures MoveEnds(in_).Some? <==> (in_.op.Copy? || in_.op.Par? || in_.op.Arg?) && in_.to.Temp? && |in_.args| == 1 && in_.args[0].Temp?
  {
    if in_.to.Temp? && |in_.args| == 1 && in_.args[0].Temp? {
      MovesAre(in_, in_.to.id, in_.args[0].id);
      assert in_.args == [in_.args[0]];
    }
    if MoveEnds(in_).Some? {
      MovesAre(in_, MoveEnds(in_).value.0, MoveEnds(in_).value.1);
    }
  }

  /** Over temporaries, a copy, parameter or argument of one temporary moves its value
      and does nothing else; a lifetime marker does nothing. */
  lemma MoveMoves<V, M>(sem: Sem<V, M>, in_: Instr, st: TState<V, M>, d: nat, s: nat)
    ensures in_.op.LifeStart? || in_.op.LifeEnd? ==> StepT(sem, in_, st) == st
    ensures (in_.op.Copy? || in_.op.Par? || in_.op.Arg?) && in_.to == Temp(d) && in_.args == [Temp(s)] ==>
              StepT(sem, in_, st).mem == st.mem && StepT(sem, in_, st).env(d) == st.env(s) &&
              forall x :: x != d ==> StepT(sem, in_, st).env(x) == st.env(x)
  {
    MovesAre(in_, d, s);
  }

  /** Anything else computes: its result, when it has one, is what the operation makes of
      the values its arguments and environment have, and so is the memory; what it does
      not write it leaves. */
  lemma OperationComputes<V, M>(sem: Sem<V, M>, in_: Instr, st: TState<V, M>, xs: seq<nat>)
    requires !in_.op.LifeStart? && !in_.op.LifeEnd?
    requires !((in_.op.Copy? || in_.op.Par? || in_.op.Arg?) && in_.to.Temp? && |in_.args| == 1 && in_.args[0].Temp?)
    requires xs == Temps(in_.args + (if in_.context.Temp? then [in_.context] else []))
    ensures var (res, mem) := sem.eval(in_, seq(|xs|, i requires 0 <= i < |xs| => st.env(xs[i])), st.mem);
            && StepT(sem, in_, st).mem == mem
            && (in_.to.Temp? && in_.defs == [] ==> StepT(sem, in_, st).env(in_.to.id) == res(0))
            && (in_.to.Other? && |in_.defs| == 1 && in_.defs[0].Temp? ==> StepT(sem, in_, st).env(in_.defs[0].id) == res(0))
            && (in_.to.Temp? && |in_.defs| == 1 && in_.defs[0].Temp? && in_.to != in_.defs[0] ==>
                  StepT(sem, in_, st).env(in_.to.id) == res(0) && StepT(sem, in_, st).env(in_.defs[0].id) == res(1))
    ensures forall x :: in_.to != Temp(x) && Temp(x) !in in_.defs ==> StepT(sem, in_, st).env(x) == st.env(x)
  {
    NotMoved(in_);
    UsesListed(in_, xs);
    assert Read(st.env, UseSeq(in_)) == seq(|xs|, i requires 0 <= i < |xs| => st.env(xs[i]));
    var (res, mem) := sem.eval(in_, Read(st.env, UseSeq(in_)), st.mem);
    ResultsListed(in_);
    if in_.to.Temp? && in_.defs == [] {
      WriteFew(st.env, _ => st.env(0), _ => Reg(0), in_.to.id, 0, res);
    } else if |in_.defs| == 1 && in_.defs[0].Temp? {
      if in_.to.Temp? {
        WriteFew(st.env, _ => st.env(0), _ => Reg(0), in_.to.id, in_.defs[0].id, res);
      } else {
        WriteFew(st.env, _ => st.env(0), _ => Reg(0), in_.defs[0].id, 0, res);
      }
    }
    forall x | in_.to != Temp(x) && Temp(x) !in in_.defs
      ensures StepT(sem, in_, st).env(x) == st.env(x)
    {
      ReadsAndWrites(in_, x);
      WriteKeeps(st.env, DefSeq(in_), res, 0, x);
    }
  }

  lemma UsesListed(in_: Instr, xs: seq<nat>)
    requires xs == Temps(in_.args + (if in_.context.Temp? then [in_.context] else []))
    ensures UseSeq(in_) == xs
  {
    assert in_.args + [] == in_.args;
  }

  lemma ResultsListed(in_: Instr)
    ensures in_.to.Temp? && in_.defs == [] ==> DefSeq(in_) == [in_.to.id]
    ensures in_.to.Other? && |in_.defs| == 1 && in_.defs[0].Temp? ==> DefSeq(in_) == [in_.defs[0].id]
    ensures in_.to.Temp? && |in_.defs| == 1 && in_.defs[0].Temp? ==> DefSeq(in_) == [in_.to.id, in_.defs[0].id]
  {
    TempsFirst(in_.to, in_.defs);
    if |in_.defs| == 1 {
      assert in_.defs == [in_.defs[0]] + [];
      TempsFirst(in_.defs[0], []);
    }
  }

  lemma WriteFew<V>(env: nat -> V, store: Loc -> V, loc: nat -> Loc, a: nat, b: nat, vals: nat -> V)
    ensures Write(env, [a], vals, 0)(a) == vals(0)
    ensures Write(env, [a, b], vals, 0)(b) == vals(1) && (a != b ==> Write(env, [a, b], vals, 0)(a) == vals(0))
    ensures WriteLocs(store, loc, [a], vals, 0)(loc(a)) == vals(0)
  {
    var one := Put<nat, V>(env, a, vals(0));
    assert Write(env, [a], vals, 0) == Write(one, [a], vals, 1) == one;
    assert Write(env, [a, b], vals, 0) == Write(one, [a, b], vals, 1);
    assert Write(one, [a, b], vals, 1) == Write(Put<nat, V>(one, b, vals(1)), [a, b], vals, 2);
    assert WriteLocs(store, loc, [a], vals, 0) == WriteLocs(Put(store, loc(a), vals(0)), loc, [a], vals, 1);
  }

  /** On the machine: markers do nothing, saves, restores and moves copy one place to
      another. */
  lemma MachineMoves<V, M>(sem: Sem<V, M>, preserved: set<nat>, loc: nat -> Loc, in_: Instr, ms: MState<V, M>, d: nat, s: nat)
    ensures in_.op.LifeStart? || in_.op.LifeEnd? ==> StepM(sem, preserved, loc, in_, ms) == ms
    ensures in_.op.Spill? && in_.args == [Temp(s)] ==>
              StepM(sem, preserved, loc, in_, ms).mem == ms.mem && StepM(sem, preserved, loc, in_, ms).store(Slot(in_.op.slot)) == ms.store(loc(s)) &&
              forall l: Loc :: l != Slot(in_.op.slot) ==> StepM(sem, preserved, loc, in_, ms).store(l) == ms.store(l)
    ensures in_.op.Reload? && in_.to == Temp(d) ==>
              StepM(sem, preserved, loc, in_, ms).mem == ms.mem && StepM(sem, preserved, loc, in_, ms).store(loc(d)) == ms.store(Slot(in_.op.slot)) &&
              forall l: Loc :: l != loc(d) ==> StepM(sem, preserved, loc, in_, ms).store(l) == ms.store(l)
    ensures (in_.op.Copy? || in_.op.Par? || in_.op.Arg?) && in_.to == Temp(d) && in_.args == [Temp(s)] ==>
              StepM(sem, preserved, loc, in_, ms).mem == ms.mem && StepM(sem, preserved, loc, in_, ms).store(loc(d)) == ms.store(loc(s)) &&
              forall l: Loc :: l != loc(d) ==> StepM(sem, preserved, loc, in_, ms).store(l) == ms.store(l)
  {
    MovesAre(in_, d, s);
  }

  /** Where no result is put: a call leaves junk in every register its callee need not
      preserve, an inline assembly in every register it names, and nothing else changes. */
  lemma MachineDestroys<V, M>(sem: Sem<V, M>, preserved: set<nat>, loc: nat -> Loc, in_: Instr, ms: MState<V, M>, l: Loc)
    requires (forall d :: in_.to == Temp(d) || Temp(d) in in_.defs ==> loc(d) != l) && !in_.op.Spill? && !in_.op.Reload?
    ensures in_.op.Call? ==>
              StepM(sem, preserved, loc, in_, ms).store(l) == if l.Reg? && l.r !in preserved then sem.junk(in_, ms.mem, 2, l) else ms.store(l)
    ensures in_.op.Asm? && l.Reg? && l.r in in_.op.clobbers ==> StepM(sem, preserved, loc, in_, ms).store(l) == sem.junk(in_, ms.mem, 1, l)
    ensures !in_.op.Call? && !(in_.op.Asm? && l.Reg? && l.r in in_.op.clobbers) ==> StepM(sem, preserved, loc, in_, ms).store(l) == ms.store(l)
  {
    NotMoved(in_);
    forall d
      ensures d in DefSeq(in_) <==> in_.to == Temp(d) || Temp(d) in in_.defs
    {
      ReadsAndWrites(in_, d);
    }
    if !in_.op.IsLifetime() && MoveEnds(in_).None? {
      var (res, mem) := sem.eval(in_, ReadLocs(Before(sem, loc, in_, ms), loc, UseSeq(in_)), ms.mem);
      WritesElsewhere(After(sem, preserved, loc, in_, ms), loc, DefSeq(in_), res, 0, l);
    }
  }

  /** What an operation other than an inline assembly puts in its result's place is
      computed from what its operands' places held. */
  lemma MachineComputes<V, M>(sem: Sem<V, M>, preserved: set<nat>, loc: nat -> Loc, in_: Instr, ms: MState<V, M>, xs: seq<nat>)
    requires !in_.op.LifeStart? && !in_.op.LifeEnd? && !in_.op.Spill? && !in_.op.Reload? && !in_.op.Asm?
    requires !((in_.op.Copy? || in_.op.Par? || in_.op.Arg?) && in_.to.Temp? && |in_.args| == 1 && in_.args[0].Temp?)
    requires xs == Temps(in_.args + (if in_.context.Temp? then [in_.context] else []))
    ensures var (res, mem) := sem.eval(in_, seq(|xs|, i requires 0 <= i < |xs| => ms.store(loc(xs[i]))), ms.mem);
            StepM(sem, preserved, loc, in_, ms).mem == mem &&
            (in_.to.Temp? && in_.defs == [] ==> StepM(sem, preserved, loc, in_, ms).store(loc(in_.to.id)) == res(0))
  {
    NotMoved(in_);
    UsesListed(in_, xs);
    ResultsListed(in_);
    assert ReadLocs(ms.store, loc, UseSeq(in_)) == seq(|xs|, i requires 0 <= i < |xs| => ms.store(loc(xs[i])));
    if in_.to.Temp? && in_.defs == [] {
      var (res, mem) := sem.eval(in_, ReadLocs(ms.store, loc, UseSeq(in_)), ms.mem);
      WriteFew((x: nat) => ms.store(loc(x)), After(sem, preserved, loc, in_, ms), loc, in_.to.id, 0, res);
    }
  }

  /** An inline assembly reads junk where a register it names, or the place of a result,
      may be written first: everywhere but in a register shared by a pinned result and a
      pinned operand. */
  lemma MachineReadsEarly<V, M>(sem: Sem<V, M>, preserved: set<nat>, loc: nat -> Loc, in_: Instr, ms: MState<V, M>, u: nat)
    requires in_.op.Asm?
    ensures Before(sem, loc, in_, ms)(loc(u)) ==
            if (loc(u).Reg? && loc(u).r in in_.op.clobbers) ||
               (exists d :: (in_.to == Temp(d) || Temp(d) in in_.defs) && loc(d) == loc(u) &&
                            !(d in in_.op.pins && exists v :: (Temp(v) in in_.args || in_.context == Temp(v)) && v in in_.op.pins && loc(v) == loc(u)))
            then sem.junk(in_, ms.mem, 0, loc(u)) else ms.store(loc(u))
    ensures StepM(sem, preserved, loc, in_, ms).mem == sem.eval(in_, ReadLocs(Before(sem, loc, in_, ms), loc, UseSeq(in_)), ms.mem).1
  {
    NotMoved(in_);
    forall d
      ensures d in DefSeq(in_) <==> in_.to == Temp(d) || Temp(d) in in_.defs
      ensures d in UseSeq(in_) <==> Temp(d) in in_.args || in_.context == Temp(d)
    {
      ReadsAndWrites(in_, d);
    }
    if d :| (in_.to == Temp(d) || Temp(d) in in_.defs) && loc(d) == loc(u) &&
            !(d in in_.op.pins && exists v :: (Temp(v) in in_.args || in_.context == Temp(v)) && v in in_.op.pins && loc(v) == loc(u)) {
      assert EarlyAt(loc, in_, d, loc(u));
    }
    if d :| d in DefSeq(in_) && EarlyAt(loc, in_, d, loc(u)) {
      assert in_.to == Temp(d) || Temp(d) in in_.defs;
    }
  }
}
