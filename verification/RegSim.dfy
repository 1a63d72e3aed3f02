/** Allocated code does what the temporaries do: the simulation behind register
    allocation with caller saves. */
module RegSim {
  import opened Graphs
  import opened Ir
  import opened Liveness
  import opened Interference
  import opened Machine
  import opened CallerSaves

  function ExecT<V, M>(sem: Sem<V, M>, s: seq<Instr>, st: TState<V, M>): TState<V, M> {
    if s == [] then st else ExecT(sem, s[1..], StepT(sem, s[0], st))
  }

  function ExecM<V, M>(sem: Sem<V, M>, preserved: set<nat>, loc: nat -> Loc, s: seq<Instr>, ms: MState<V, M>): MState<V, M> {
    if s == [] then ms else ExecM(sem, preserved, loc, s[1..], StepM(sem, preserved, loc, s[0], ms))
  }

  lemma {:induction false} ExecTConcat<V, M>(sem: Sem<V, M>, a: seq<Instr>, b: seq<Instr>, st: TState<V, M>)
    ensures ExecT(sem, a + b, st) == ExecT(sem, b, ExecT(sem, a, st))
  {
    if a == [] {
      assert a + b == b;
    } else {
      assert (a + b)[1..] == a[1..] + b;
      ExecTConcat(sem, a[1..], b, StepT(sem, a[0], st));
    }
  }

  lemma {:induction false} ExecMConcat<V, M>(sem: Sem<V, M>, preserved: set<nat>, loc: nat -> Loc, a: seq<Instr>, b: seq<Instr>, ms: MState<V, M>)
    ensures ExecM(sem, preserved, loc, a + b, ms) == ExecM(sem, preserved, loc, b, ExecM(sem, preserved, loc, a, ms))
  {
    if a == [] {
      assert a + b == b;
    } else {
      assert (a + b)[1..] == a[1..] + b;
      ExecMConcat(sem, preserved, loc, a[1..], b, StepM(sem, preserved, loc, a[0], ms));
    }
  }

  /** The two executions agree on memory and on what is live. */
  ghost predicate Sim<V, M>(live: set<nat>, loc: nat -> Loc, st: TState<V, M>, ms: MState<V, M>) {
    st.mem == ms.mem && Agree(live, loc, st, ms)
  }

  // ----- what one block must satisfy -----

  /** Arguments set up for the call at e are not live after it. */
  ghost predicate ArgsDie(ins: seq<Instr>, end: set<nat>, j: nat, e: nat)
    requires j < e < |ins|
  {
    forall d :: d in DefSeq(ins[j]) ==> d !in RawFrom(ins, e + 1, end) || d in DefSeq(ins[e])
  }

  ghost predicate RunTo(ins: seq<Instr>, j: nat, e: nat) {
    j < e < |ins| && ins[e].op.Call? && !ins[e].op.tail && forall i :: j <= i < e ==> ins[i].op.Arg?
  }

  /** What lowering gives the allocator: ordinary instructions, arguments that die at
      their call, and nothing live across a tail call. */
  ghost predicate Lowered(ins: seq<Instr>, end: set<nat>) {
    && (forall i :: 0 <= i < |ins| ==> Ordinary(ins[i]))
    && (forall j, e :: RunTo(ins, j, e) ==> ArgsDie(ins, end, j, e))
    && (forall i, t :: 0 <= i < |ins| && ins[i].op.Call? && ins[i].op.tail && t in LiveFrom(ins, i + 1, end) ==> t in DefSeq(ins[i]))
  }

  /** What allocation gives: clashing temporaries are apart at every instruction, and
      save slots are private. */
  ghost predicate Placement(loc: nat -> Loc, reg: Regs, m: map<nat, nat>, ins: seq<Instr>, end: set<nat>) {
    && (forall i :: 0 <= i < |ins| ==> Separated(loc, ins[i], RawFrom(ins, i + 1, end)))
    && (forall i, t :: 0 <= i <= |ins| && t in RawFrom(ins, i, end) ==> t < |reg|)
    && Placed(loc, reg, m)
  }

  ghost predicate Placed(loc: nat -> Loc, reg: Regs, m: map<nat, nat>) {
    && (forall t: nat :: t < |reg| ==> (if reg[t].Some? then loc(t) == Reg(reg[t].value) else loc(t).Slot?))
    && (forall t, u: nat :: t in m ==> loc(u) != Slot(m[t]))
    && (forall t, u :: t in m && u in m && t != u ==> m[t] != m[u])
  }

  lemma {:induction false} LiveIsRaw(ins: seq<Instr>, end: set<nat>, k: nat)
    requires k <= |ins| && forall i :: 0 <= i < |ins| ==> Ordinary(ins[i])
    ensures LiveFrom(ins, k, end) <= RawFrom(ins, k, end)
    decreases |ins| - k
  {
    hide DefSeq, UseSeq;
    if k < |ins| {
      LiveIsRaw(ins, end, k + 1);
      assert Ordinary(ins[k]);
      RawStep(ins, k, end);
    }
  }

  // ----- saves and restores -----

  function SlotOf(m: map<nat, nat>, t: nat): Loc {
    Slot(SlotFor(m, t))
  }

  /** Saves copy the registers into the slots and touch nothing else. */
  lemma {:induction false} SavesRun<V, M>(sem: Sem<V, M>, preserved: set<nat>, loc: nat -> Loc, reg: Regs, m: map<nat, nat>, ts: seq<nat>, ms: MState<V, M>)
    requires Placed(loc, reg, m) && forall t :: t in ts ==> t in m
    ensures ExecM(sem, preserved, loc, Saves(m, ts), ms).mem == ms.mem
    ensures forall l: Loc :: (forall t :: t in ts ==> l != SlotOf(m, t)) ==> ExecM(sem, preserved, loc, Saves(m, ts), ms).store(l) == ms.store(l)
    ensures forall t :: t in ts ==> ExecM(sem, preserved, loc, Saves(m, ts), ms).store(SlotOf(m, t)) == ms.store(loc(t))
  {
    if ts != [] {
      var t0 := ts[0];
      assert Saves(m, ts)[1..] == Saves(m, ts[1..]) && Saves(m, ts)[0] == Save(m, t0);
      var ms' := StepM(sem, preserved, loc, Save(m, t0), ms);
      assert ms' == ms.(store := Put(ms.store, SlotOf(m, t0), ms.store(loc(t0))));
      SavesRun(sem, preserved, loc, reg, m, ts[1..], ms');
      assert forall t :: t in ts <==> t == t0 || t in ts[1..];
    }
  }

  /** Restores put back what the slots were filled from. */
  lemma {:induction false} RestoresRun<V, M>(sem: Sem<V, M>, preserved: set<nat>, loc: nat -> Loc, reg: Regs, m: map<nat, nat>, ts: seq<nat>,
                                             ms: MState<V, M>, was: Loc -> V)
    requires Placed(loc, reg, m) && (forall t :: t in ts ==> t in m) && forall t :: t in ts ==> ms.store(SlotOf(m, t)) == was(loc(t))
    ensures ExecM(sem, preserved, loc, Restores(m, ts), ms).mem == ms.mem
    ensures forall l: Loc :: (forall t :: t in ts ==> l != loc(t)) ==> ExecM(sem, preserved, loc, Restores(m, ts), ms).store(l) == ms.store(l)
    ensures forall t :: t in ts ==> ExecM(sem, preserved, loc, Restores(m, ts), ms).store(loc(t)) == was(loc(t))
  {
    if ts != [] {
      var t0 := ts[0];
      assert Restores(m, ts)[1..] == Restores(m, ts[1..]) && Restores(m, ts)[0] == Restore(m, t0);
      var ms' := StepM(sem, preserved, loc, Restore(m, t0), ms);
      assert ms' == ms.(store := Put(ms.store, loc(t0), ms.store(SlotOf(m, t0))));
      assert forall t :: t in ts <==> t == t0 || t in ts[1..];
      RestoresRun(sem, preserved, loc, reg, m, ts[1..], ms', was);
    }
  }

  // ----- straight-line code -----

  lemma {:induction false} ExecLeaves<V, M>(sem: Sem<V, M>, preserved: set<nat>, loc: nat -> Loc, s: seq<Instr>, ms: MState<V, M>, l: Loc)
    requires (forall i :: 0 <= i < |s| ==> Ordinary(s[i])) && l.Slot? && forall t: nat :: loc(t) != l
    ensures ExecM(sem, preserved, loc, s, ms).store(l) == ms.store(l)
  {
    if s != [] {
      StepLeaves(sem, preserved, loc, s[0], ms, l);
      ExecLeaves(sem, preserved, loc, s[1..], StepM(sem, preserved, loc, s[0], ms), l);
    }
  }

  lemma {:induction false} ExecKeepsTemp<V, M>(sem: Sem<V, M>, s: seq<Instr>, st: TState<V, M>, t: nat)
    requires forall i :: 0 <= i < |s| ==> t !in DefSeq(s[i])
    ensures ExecT(sem, s, st).env(t) == st.env(t)
  {
    if s != [] {
      StepKeepsTemp(sem, s[0], st, t);
      ExecKeepsTemp(sem, s[1..], StepT(sem, s[0], st), t);
    }
  }

  lemma AnyStepAgrees<V, M>(sem: Sem<V, M>, preserved: set<nat>, loc: nat -> Loc, reg: Regs, m: map<nat, nat>, ins: seq<Instr>, end: set<nat>, k: nat,
                            st: TState<V, M>, ms: MState<V, M>)
    requires Lowered(ins, end) && Placement(loc, reg, m, ins, end) && k < |ins|
    requires Sim(LiveFrom(ins, k, end), loc, st, ms)
    ensures Sim(Kept(preserved, loc, ins[k], LiveFrom(ins, k + 1, end)), loc, StepT(sem, ins[k], st), StepM(sem, preserved, loc, ins[k], ms))
  {
    hide Separated, Kept, StepT, StepM, Placed;
    var live, raw := LiveFrom(ins, k + 1, end), RawFrom(ins, k + 1, end);
    LiveIsRaw(ins, end, k + 1);
    assert Ordinary(ins[k]) && Separated(loc, ins[k], raw);
    StepAgrees(sem, preserved, loc, ins[k], live, raw, st, ms);
  }

  /** One instruction that is not a call. */
  lemma PlainAgrees<V, M>(sem: Sem<V, M>, preserved: set<nat>, loc: nat -> Loc, reg: Regs, m: map<nat, nat>, ins: seq<Instr>, end: set<nat>, k: nat,
                          st: TState<V, M>, ms: MState<V, M>)
    requires Lowered(ins, end) && Placement(loc, reg, m, ins, end) && k < |ins| && !ins[k].op.Call?
    requires Sim(LiveFrom(ins, k, end), loc, st, ms)
    ensures Sim(LiveFrom(ins, k + 1, end), loc, StepT(sem, ins[k], st), StepM(sem, preserved, loc, ins[k], ms))
  {
    hide Sim, StepT, StepM, LiveFrom, Lowered, Placement;
    AnyStepAgrees(sem, preserved, loc, reg, m, ins, end, k, st, ms);
    assert Kept(preserved, loc, ins[k], LiveFrom(ins, k + 1, end)) == LiveFrom(ins, k + 1, end);
  }

  /** A stretch without calls. */
  lemma {:induction false} StretchAgrees<V, M>(sem: Sem<V, M>, preserved: set<nat>, loc: nat -> Loc, reg: Regs, m: map<nat, nat>, ins: seq<Instr>, end: set<nat>,
                                               k: nat, e: nat, st: TState<V, M>, ms: MState<V, M>)
    requires Lowered(ins, end) && Placement(loc, reg, m, ins, end) && k <= e <= |ins| && forall i :: k <= i < e ==> !ins[i].op.Call?
    requires Sim(LiveFrom(ins, k, end), loc, st, ms)
    ensures Sim(LiveFrom(ins, e, end), loc, ExecT(sem, ins[k..e], st), ExecM(sem, preserved, loc, ins[k..e], ms))
    decreases e - k
  {
    hide Lowered, Placement, Sim, LiveFrom, StepT, StepM;
    if k < e {
      PlainAgrees(sem, preserved, loc, reg, m, ins, end, k, st, ms);
      StretchAgrees(sem, preserved, loc, reg, m, ins, end, k + 1, e, StepT(sem, ins[k], st), StepM(sem, preserved, loc, ins[k], ms));
      assert ins[k..e][1..] == ins[k + 1..e];
    }
  }

  lemma {:induction false} LiveBack(ins: seq<Instr>, end: set<nat>, k: nat, e: nat, t: nat)
    requires k <= e <= |ins| && t in LiveFrom(ins, e, end) && forall i :: k <= i < e ==> t !in DefSeq(ins[i])
    ensures t in LiveFrom(ins, k, end)
    decreases e - k
  {
    if k < e {
      LiveBack(ins, end, k + 1, e, t);
    }
  }

  // ----- a call with its saves -----

  lemma SavedFirst<V, M>(sem: Sem<V, M>, preserved: set<nat>, loc: nat -> Loc, reg: Regs, m: map<nat, nat>, ts: seq<nat>, live: set<nat>,
                         st: TState<V, M>, ms: MState<V, M>)
    requires Placed(loc, reg, m) && (forall t :: t in ts ==> t in m) && Sim(live, loc, st, ms)
    ensures Sim(live, loc, st, ExecM(sem, preserved, loc, Saves(m, ts), ms))
  {
    SavesRun(sem, preserved, loc, reg, m, ts, ms);
    forall t | t in live
      ensures ExecM(sem, preserved, loc, Saves(m, ts), ms).store(loc(t)) == st.env(t)
    {
      assert forall u :: u in ts ==> loc(t) != SlotOf(m, u);
    }
  }

  /** The slots still hold, after the call, what the registers held before the saves. */
  lemma SlotsSurvive<V, M>(sem: Sem<V, M>, preserved: set<nat>, loc: nat -> Loc, reg: Regs, m: map<nat, nat>, ts: seq<nat>, mid: seq<Instr>,
                           ms: MState<V, M>, t: nat)
    requires Placed(loc, reg, m) && (forall u :: u in ts ==> u in m) && t in ts && forall i :: 0 <= i < |mid| ==> Ordinary(mid[i])
    ensures ExecM(sem, preserved, loc, mid, ExecM(sem, preserved, loc, Saves(m, ts), ms)).store(SlotOf(m, t)) == ms.store(loc(t))
  {
    SavesRun(sem, preserved, loc, reg, m, ts, ms);
    ExecLeaves(sem, preserved, loc, mid, ExecM(sem, preserved, loc, Saves(m, ts), ms), SlotOf(m, t));
  }

  /** A temporary live after the call, not one of its results, is not written from the
      first argument on. */
  lemma CrossesRun(ins: seq<Instr>, end: set<nat>, k: nat, e: nat, t: nat, i: nat)
    requires Lowered(ins, end) && k <= e < |ins| && (forall j :: k <= j < e ==> ins[j].op.Arg?) && ins[e].op.Call? && !ins[e].op.tail
    requires t in RawFrom(ins, e + 1, end) && t !in DefSeq(ins[e]) && k <= i <= e
    ensures t !in DefSeq(ins[i])
  {
    if i < e {
      assert RunTo(ins, i, e);
      assert ArgsDie(ins, end, i, e);
    }
  }

  /** A result of the call shares no location with what the call saves. */
  lemma ResultAway(loc: nat -> Loc, reg: Regs, preserved: set<nat>, m: map<nat, nat>, ins: seq<Instr>, end: set<nat>, e: nat, t: nat, u: nat)
    requires Placement(loc, reg, m, ins, end) && e < |ins| && t in DefSeq(ins[e]) && u in ListAt(reg, preserved, ins, end, e)
    ensures loc(u) != loc(t)
  {
    var raw := RawFrom(ins, e + 1, end);
    assert SavedAt(reg, preserved, ins[e], raw, u);
    assert Separated(loc, ins[e], raw);
    DefAway(loc, ins[e], raw, t, u);
  }

  /** What a restore puts back is in a register the call may destroy. */
  lemma SavedIsDestroyed(loc: nat -> Loc, reg: Regs, preserved: set<nat>, m: map<nat, nat>, ins: seq<Instr>, end: set<nat>, e: nat, u: nat)
    requires Placed(loc, reg, m) && e < |ins| && u in ListAt(reg, preserved, ins, end, e)
    ensures Destroyed(preserved, loc(u))
  {
    assert SavedAt(reg, preserved, ins[e], RawFrom(ins, e + 1, end), u);
  }

  lemma DestroyedIsSaved(loc: nat -> Loc, reg: Regs, preserved: set<nat>, m: map<nat, nat>, ins: seq<Instr>, end: set<nat>, e: nat, t: nat)
    requires Placement(loc, reg, m, ins, end) && e < |ins| && ins[e].op.Call? && !ins[e].op.tail
    requires t in RawFrom(ins, e + 1, end) && t !in DefSeq(ins[e]) && Destroyed(preserved, loc(t))
    ensures t in ListAt(reg, preserved, ins, end, e)
  {
    assert SavedAt(reg, preserved, ins[e], RawFrom(ins, e + 1, end), t);
  }

  /** The states around one wrapped call. */
  datatype Around<!V, !M> = Around(st0: TState<V, M>, ms0: MState<V, M>, st3: TState<V, M>, ms3: MState<V, M>, ms4: MState<V, M>)

  ghost predicate AroundCall<V, M>(sem: Sem<V, M>, preserved: set<nat>, loc: nat -> Loc, m: map<nat, nat>, ts: seq<nat>, mid: seq<Instr>, a: Around<V, M>) {
    && a.st3 == ExecT(sem, mid, a.st0)
    && a.ms3 == ExecM(sem, preserved, loc, mid, ExecM(sem, preserved, loc, Saves(m, ts), a.ms0))
    && a.ms4 == ExecM(sem, preserved, loc, Restores(m, ts), a.ms3)
  }

  /** The call itself, with arguments, saves done. */
  lemma CallStretch<V, M>(sem: Sem<V, M>, preserved: set<nat>, loc: nat -> Loc, reg: Regs, m: map<nat, nat>, ins: seq<Instr>, end: set<nat>,
                          k: nat, e: nat, st: TState<V, M>, ms: MState<V, M>)
    requires Lowered(ins, end) && Placement(loc, reg, m, ins, end) && k <= e < |ins| && (forall i :: k <= i < e ==> ins[i].op.Arg?)
    requires Sim(LiveFrom(ins, k, end), loc, st, ms)
    ensures Sim(Kept(preserved, loc, ins[e], LiveFrom(ins, e + 1, end)), loc, ExecT(sem, ins[k..e + 1], st), ExecM(sem, preserved, loc, ins[k..e + 1], ms))
  {
    hide StepT, StepM, Placement, Lowered, LiveFrom, Sim, Kept, ExecT, ExecM;
    StretchAgrees(sem, preserved, loc, reg, m, ins, end, k, e, st, ms);
    var st2, ms2 := ExecT(sem, ins[k..e], st), ExecM(sem, preserved, loc, ins[k..e], ms);
    assert ins[k..e + 1] == ins[k..e] + [ins[e]];
    ExecTConcat(sem, ins[k..e], [ins[e]], st);
    ExecMConcat(sem, preserved, loc, ins[k..e], [ins[e]], ms);
    AnyStepAgrees(sem, preserved, loc, reg, m, ins, end, e, st2, ms2);
    OneRuns(sem, preserved, loc, ins[e], st2, ms2);
  }

  lemma OneRuns<V, M>(sem: Sem<V, M>, preserved: set<nat>, loc: nat -> Loc, in_: Instr, st: TState<V, M>, ms: MState<V, M>)
    ensures ExecT(sem, [in_], st) == StepT(sem, in_, st) && ExecM(sem, preserved, loc, [in_], ms) == StepM(sem, preserved, loc, in_, ms)
  {
  }

  /** After the restores every live temporary is back in its place. */
  lemma RestoredAgrees<V, M>(sem: Sem<V, M>, preserved: set<nat>, loc: nat -> Loc, reg: Regs, m: map<nat, nat>, ins: seq<Instr>, end: set<nat>,
                             k: nat, e: nat, a: Around<V, M>, t: nat)
    requires Lowered(ins, end) && Placement(loc, reg, m, ins, end) && CallRun(ins, k, e) && t in LiveFrom(ins, e + 1, end)
    requires forall u :: u in ListAt(reg, preserved, ins, end, e) ==> u in m
    requires AroundCall(sem, preserved, loc, m, ListAt(reg, preserved, ins, end, e), ins[k..e + 1], a)
    requires Sim(LiveFrom(ins, k, end), loc, a.st0, a.ms0)
    requires Sim(Kept(preserved, loc, ins[e], LiveFrom(ins, e + 1, end)), loc, a.st3, a.ms3)
    ensures a.ms4.store(loc(t)) == a.st3.env(t) && a.ms4.mem == a.ms3.mem
  {
    hide SaveList, ExecM, ExecT, RawFrom, LiveFrom, ArgEnd, Restores, Saves, Lowered, Placement;
    var ts := ListAt(reg, preserved, ins, end, e);
    ArgEndRun(ins, k, e);
    PlacementPlaced(loc, reg, m, ins, end);
    RawOf(ins, end, e + 1, t);
    SegmentOrdinary(ins, end, k, e, ins[k..e + 1]);
    forall u | u in ts
      ensures a.ms3.store(SlotOf(m, u)) == a.ms0.store(loc(u))
    {
      SlotsSurvive(sem, preserved, loc, reg, m, ts, ins[k..e + 1], a.ms0, u);
    }
    RestoresRun(sem, preserved, loc, reg, m, ts, a.ms3, a.ms0.store);
    if t in DefSeq(ins[e]) {
      forall u | u in ts
        ensures loc(u) != loc(t)
      {
        ResultAway(loc, reg, preserved, m, ins, end, e, t, u);
      }
    } else if Destroyed(preserved, loc(t)) {
      NotTail(ins, end, e, t);
      DestroyedIsSaved(loc, reg, preserved, m, ins, end, e, t);
      CrossesUnchanged(sem, ins, end, k, e, a.st0, t);
    } else {
      forall u | u in ts
        ensures loc(u) != loc(t)
      {
        SavedIsDestroyed(loc, reg, preserved, m, ins, end, e, u);
      }
    }
  }

  lemma ArgEndRun(ins: seq<Instr>, k: nat, e: nat)
    requires CallRun(ins, k, e)
    ensures k <= e < |ins| && (forall i :: k <= i < e ==> ins[i].op.Arg?) && ins[e].op.Call?
  {
  }

  lemma PlacementPlaced(loc: nat -> Loc, reg: Regs, m: map<nat, nat>, ins: seq<Instr>, end: set<nat>)
    requires Placement(loc, reg, m, ins, end)
    ensures Placed(loc, reg, m)
  {
  }

  lemma RawOf(ins: seq<Instr>, end: set<nat>, k: nat, t: nat)
    requires Lowered(ins, end) && k <= |ins| && t in LiveFrom(ins, k, end)
    ensures t in RawFrom(ins, k, end)
  {
    LiveIsRaw(ins, end, k);
  }

  lemma SegmentOrdinary(ins: seq<Instr>, end: set<nat>, k: nat, e: nat, mid: seq<Instr>)
    requires Lowered(ins, end) && k <= e < |ins| && mid == ins[k..e + 1]
    ensures forall i :: 0 <= i < |mid| ==> Ordinary(mid[i])
  {
  }

  lemma NotTail(ins: seq<Instr>, end: set<nat>, e: nat, t: nat)
    requires Lowered(ins, end) && e < |ins| && ins[e].op.Call? && t in LiveFrom(ins, e + 1, end) && t !in DefSeq(ins[e])
    ensures !ins[e].op.tail
  {
  }

  lemma CrossesUnchanged<V, M>(sem: Sem<V, M>, ins: seq<Instr>, end: set<nat>, k: nat, e: nat, st: TState<V, M>, t: nat)
    requires Lowered(ins, end) && k <= e < |ins| && (forall j :: k <= j < e ==> ins[j].op.Arg?) && ins[e].op.Call? && !ins[e].op.tail
    requires t in LiveFrom(ins, e + 1, end) && t in RawFrom(ins, e + 1, end) && t !in DefSeq(ins[e])
    ensures t in LiveFrom(ins, k, end) && ExecT(sem, ins[k..e + 1], st).env(t) == st.env(t)
  {
    hide Lowered;
    forall i | k <= i <= e
      ensures t !in DefSeq(ins[i])
    {
      CrossesRun(ins, end, k, e, t, i);
    }
    LiveBack(ins, end, k, e + 1, t);
    ExecKeepsTemp(sem, ins[k..e + 1], st, t);
  }

  /** A wrapped call keeps the executions in agreement. */
  lemma CallAgrees<V, M>(sem: Sem<V, M>, preserved: set<nat>, loc: nat -> Loc, reg: Regs, m: map<nat, nat>, ins: seq<Instr>, end: set<nat>,
                         k: nat, e: nat, a: Around<V, M>)
    requires Lowered(ins, end) && Placement(loc, reg, m, ins, end) && CallRun(ins, k, e)
    requires forall u :: u in ListAt(reg, preserved, ins, end, e) ==> u in m
    requires AroundCall(sem, preserved, loc, m, ListAt(reg, preserved, ins, end, e), ins[k..e + 1], a)
    requires Sim(LiveFrom(ins, k, end), loc, a.st0, a.ms0)
    ensures Sim(LiveFrom(ins, e + 1, end), loc, a.st3, a.ms4)
  {
    hide SaveList, ExecM, ExecT, RawFrom, LiveFrom, ArgEnd, Restores, Saves, Lowered, Placement, ListAt;
    ArgEndRun(ins, k, e);
    PlacementPlaced(loc, reg, m, ins, end);
    var ts := ListAt(reg, preserved, ins, end, e);
    SavedFirst(sem, preserved, loc, reg, m, ts, LiveFrom(ins, k, end), a.st0, a.ms0);
    CallStretch(sem, preserved, loc, reg, m, ins, end, k, e, a.st0, ExecM(sem, preserved, loc, Saves(m, ts), a.ms0));
    forall t | t in LiveFrom(ins, e + 1, end)
      ensures a.ms4.store(loc(t)) == a.st3.env(t)
    {
      RestoredAgrees(sem, preserved, loc, reg, m, ins, end, k, e, a, t);
    }
    RestoresMem(sem, preserved, loc, m, ts, a.ms3);
  }

  lemma {:induction false} RestoresMem<V, M>(sem: Sem<V, M>, preserved: set<nat>, loc: nat -> Loc, m: map<nat, nat>, ts: seq<nat>, ms: MState<V, M>)
    ensures ExecM(sem, preserved, loc, Restores(m, ts), ms).mem == ms.mem
  {
    if ts != [] {
      assert Restores(m, ts)[1..] == Restores(m, ts[1..]) && Restores(m, ts)[0] == Restore(m, ts[0]);
      RestoresMem(sem, preserved, loc, m, ts[1..], StepM(sem, preserved, loc, Restore(m, ts[0]), ms));
    }
  }

  ghost predicate Slotted(reg: Regs, preserved: set<nat>, m: map<nat, nat>, ins: seq<Instr>, end: set<nat>) {
    forall k, t :: 0 <= k < |ins| && t in ListAt(reg, preserved, ins, end, k) ==> t in m
  }

  /** A wrapped block agrees with the block over temporaries. */
  lemma {:induction false} WrapAgrees<V, M>(sem: Sem<V, M>, preserved: set<nat>, loc: nat -> Loc, reg: Regs, m: map<nat, nat>, ins: seq<Instr>, end: set<nat>,
                                            k: nat, st: TState<V, M>, ms: MState<V, M>)
    requires Lowered(ins, end) && Placement(loc, reg, m, ins, end) && Slotted(reg, preserved, m, ins, end) && k <= |ins|
    requires Sim(LiveFrom(ins, k, end), loc, st, ms)
    ensures Sim(end, loc, ExecT(sem, ins[k..], st), ExecM(sem, preserved, loc, Wrap(reg, preserved, m, ins, end, k), ms))
    decreases |ins| - k, 1
  {
    hide Lowered, Placement, Sim, Wrap, LiveFrom, StepT, StepM, ListAt, ArgEnd, ExecT, ExecM, Saves, Restores;
    if k == |ins| {
      WrapEnd(reg, preserved, m, ins, end);
      NothingRuns(sem, preserved, loc, ins, end, st, ms);
    } else if !Sequence(ins[k]) {
      WrapPlain(reg, preserved, m, ins, end, k);
      PlainAgrees(sem, preserved, loc, reg, m, ins, end, k, st, ms);
      WrapAgrees(sem, preserved, loc, reg, m, ins, end, k + 1, StepT(sem, ins[k], st), StepM(sem, preserved, loc, ins[k], ms));
      HeadRuns(sem, preserved, loc, ins[k], ins[k + 1..], Wrap(reg, preserved, m, ins, end, k + 1), st, ms);
      assert ins[k..] == [ins[k]] + ins[k + 1..];
    } else if e: nat :| LooseRun(ins, k, e) {
      WrapLoose(reg, preserved, m, ins, end, k, e);
      LooseArgs(ins, k, e);
      StretchAgrees(sem, preserved, loc, reg, m, ins, end, k, e, st, ms);
      WrapAgrees(sem, preserved, loc, reg, m, ins, end, e, ExecT(sem, ins[k..e], st), ExecM(sem, preserved, loc, ins[k..e], ms));
      ExecTConcat(sem, ins[k..e], ins[e..], st);
      ExecMConcat(sem, preserved, loc, ins[k..e], Wrap(reg, preserved, m, ins, end, e), ms);
      assert ins[k..] == ins[k..e] + ins[e..];
    } else {
      var e := ArgEnd(ins, k);
      assert !LooseRun(ins, k, e);
      CallThenRest(sem, preserved, loc, reg, m, ins, end, k, e, st, ms);
    }
  }

  lemma CallThenRest<V, M>(sem: Sem<V, M>, preserved: set<nat>, loc: nat -> Loc, reg: Regs, m: map<nat, nat>, ins: seq<Instr>, end: set<nat>,
                           k: nat, e: nat, st: TState<V, M>, ms: MState<V, M>)
    requires Lowered(ins, end) && Placement(loc, reg, m, ins, end) && Slotted(reg, preserved, m, ins, end) && CallRun(ins, k, e)
    requires Sim(LiveFrom(ins, k, end), loc, st, ms)
    ensures Sim(end, loc, ExecT(sem, ins[k..], st), ExecM(sem, preserved, loc, Wrap(reg, preserved, m, ins, end, k), ms))
    decreases |ins| - k, 0
  {
    hide Lowered, Placement, Sim, Wrap, LiveFrom, ListAt, ArgEnd, ExecT, ExecM, Saves, Restores;
    WrapCall(reg, preserved, m, ins, end, k, e);
    var ts := ListAt(reg, preserved, ins, end, e);
    var pre, mid, post, rest := Saves(m, ts), ins[k..e + 1], Restores(m, ts), Wrap(reg, preserved, m, ins, end, e + 1);
    var st3 := ExecT(sem, mid, st);
    var ms3 := ExecM(sem, preserved, loc, mid, ExecM(sem, preserved, loc, pre, ms));
    var ms4 := ExecM(sem, preserved, loc, post, ms3);
    CallAgrees(sem, preserved, loc, reg, m, ins, end, k, e, Around(st, ms, st3, ms3, ms4));
    WrapAgrees(sem, preserved, loc, reg, m, ins, end, e + 1, st3, ms4);
    ExecTConcat(sem, mid, ins[e + 1..], st);
    assert ins[k..] == mid + ins[e + 1..];
    ExecMConcat(sem, preserved, loc, pre + mid + post, rest, ms);
    ExecMConcat(sem, preserved, loc, pre + mid, post, ms);
    ExecMConcat(sem, preserved, loc, pre, mid, ms);
  }

  lemma LooseArgs(ins: seq<Instr>, k: nat, e: nat)
    requires LooseRun(ins, k, e)
    ensures forall i :: k <= i < e ==> !ins[i].op.Call?
  {
  }

  lemma NothingRuns<V, M>(sem: Sem<V, M>, preserved: set<nat>, loc: nat -> Loc, ins: seq<Instr>, end: set<nat>, st: TState<V, M>, ms: MState<V, M>)
    ensures LiveFrom(ins, |ins|, end) == end && ExecT(sem, ins[|ins|..], st) == st && ExecM(sem, preserved, loc, [], ms) == ms
  {
  }

  lemma HeadRuns<V, M>(sem: Sem<V, M>, preserved: set<nat>, loc: nat -> Loc, in_: Instr, a: seq<Instr>, b: seq<Instr>, st: TState<V, M>, ms: MState<V, M>)
    ensures ExecT(sem, [in_] + a, st) == ExecT(sem, a, StepT(sem, in_, st))
    ensures ExecM(sem, preserved, loc, [in_] + b, ms) == ExecM(sem, preserved, loc, b, StepM(sem, preserved, loc, in_, ms))
  {
    assert ([in_] + a)[1..] == a && ([in_] + b)[1..] == b;
  }
}
