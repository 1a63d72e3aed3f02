/** The runs of moves that set up arguments and take parameters (amd64/mc.go): after
    allocation their pairs form no cycle, so emitting them as one parallel move does
    what running them in order does. */
module MoveRuns {
  import opened Graphs
  import opened Cfg
  import opened Ir
  import opened Liveness
  import opened Interference
  import opened Machine
  import opened CallerSaves
  import opened RegSim
  import opened RegAlloc
  import C = Colouring
  import P = ParallelMove

  // ----- runs -----

  /** One move of a run: at most one operand, and no result beside its destination. */
  ghost predicate RunMove(in_: Instr) {
    (in_.op.Arg? || in_.op.Par?) && |in_.args| <= 1 && in_.defs == [] && !in_.context.Temp?
  }

  ghost predicate Source(in_: Instr, s: nat) {
    in_.args == [Temp(s)]
  }

  ghost predicate Target(in_: Instr, d: nat) {
    in_.to == Temp(d)
  }

  /** A move that reads no earlier move's destination. */
  ghost predicate RunAt(ins: seq<Instr>, k: nat, e: nat, j: nat)
    requires k <= j < e <= |ins|
  {
    RunMove(ins[j]) && forall i, d :: k <= i < j && Target(ins[i], d) ==> !Source(ins[j], d)
  }

  /** What lowering makes: moves none of which reads an earlier one's destination. A
      destination need not be read afterwards. */
  ghost predicate IsRun(ins: seq<Instr>, k: nat, e: nat) {
    k <= e <= |ins| && forall j :: k <= j < e ==> RunAt(ins, k, e, j)
  }

  /** d is read after the run, and move j is the last that writes it. */
  ghost predicate ReadAfter(ins: seq<Instr>, end: set<nat>, k: nat, e: nat, j: nat, d: nat) {
    && k <= j < e <= |ins| && Target(ins[j], d) && d in RawFrom(ins, e, end)
    && forall x :: j < x < e ==> !Target(ins[x], d)
  }

  lemma NotReadLater(ins: seq<Instr>, k: nat, e: nat, i: nat, j: nat, d: nat)
    requires IsRun(ins, k, e) && k <= i < j < e && Target(ins[i], d)
    ensures !Source(ins[j], d)
  {
    hide RunMove, Source, Target;
    assert RunAt(ins, k, e, j);
  }

  ghost predicate RunApart(loc: nat -> Loc, ins: seq<Instr>, end: set<nat>) {
    forall i :: 0 <= i < |ins| ==> Separated(loc, ins[i], RawFrom(ins, i + 1, end))
  }

  lemma RunSets(in_: Instr, t: nat)
    requires RunMove(in_)
    ensures t in DefSeq(in_) <==> Target(in_, t)
    ensures t in UseSeq(in_) <==> Source(in_, t)
    ensures forall d: nat, s: nat :: MoveEnds(in_) == Some((d, s)) <==> Target(in_, d) && Source(in_, s)
  {
    assert [in_.to] + in_.defs == [in_.to];
    assert Uses(in_) == in_.args;
    assert Temp(t) in [in_.to] <==> in_.to == Temp(t);
  }

  /** What is live later and not written on the way is live before. */
  lemma {:induction false} RawBack(ins: seq<Instr>, end: set<nat>, i: nat, j: nat, t: nat)
    requires i <= j <= |ins| && t in RawFrom(ins, j, end) && forall x :: i <= x < j ==> t !in DefSeq(ins[x])
    ensures t in RawFrom(ins, i, end)
    decreases j - i
  {
    hide RawFrom, DefSeq, UseSeq;
    if i < j {
      RawBack(ins, end, i + 1, j, t);
      RawStep(ins, i, end);
    }
  }

  lemma RunMoves(ins: seq<Instr>, k: nat, e: nat, i: nat)
    requires IsRun(ins, k, e) && k <= i < e
    ensures i < |ins| && RunMove(ins[i])
  {
    hide RunMove;
    assert RunAt(ins, k, e, i);
  }

  lemma SourceLive(ins: seq<Instr>, end: set<nat>, k: nat, e: nat, i: nat, j: nat, s: nat)
    requires IsRun(ins, k, e) && k <= i < j < e && Source(ins[j], s)
    ensures s in RawFrom(ins, i + 1, end)
  {
    hide RunMove, Source, Target, IsRun, DefSeq, UseSeq;
    RunSize(ins, k, e);
    RunMoves(ins, k, e, j);
    RunSets(ins[j], s);
    RawStep(ins, j, end);
    forall x | i + 1 <= x < j
      ensures s !in DefSeq(ins[x])
    {
      RunMoves(ins, k, e, x);
      RunSets(ins[x], s);
      if Target(ins[x], s) {
        NotReadLater(ins, k, e, x, j, s);
      }
    }
    RawBack(ins, end, i + 1, j, s);
  }

  lemma RunSize(ins: seq<Instr>, k: nat, e: nat)
    requires IsRun(ins, k, e)
    ensures k <= e <= |ins|
  {
  }

  lemma TargetLive(ins: seq<Instr>, end: set<nat>, k: nat, e: nat, i: nat, j: nat, d: nat)
    requires IsRun(ins, k, e) && i < j && ReadAfter(ins, end, k, e, i, d) && j < e
    ensures d in RawFrom(ins, j + 1, end)
  {
    hide RunMove, Source, Target, IsRun, RawFrom, DefSeq, UseSeq;
    RunSize(ins, k, e);
    forall x | j + 1 <= x < e
      ensures d !in DefSeq(ins[x])
    {
      RunMoves(ins, k, e, x);
      RunSets(ins[x], d);
    }
    RawBack(ins, end, j + 1, e, d);
  }

  /** What is read afterwards does not share its home with a later destination. */
  lemma ReadApart(loc: nat -> Loc, ins: seq<Instr>, end: set<nat>, k: nat, e: nat, i: nat, j: nat, d: nat, c: nat)
    requires IsRun(ins, k, e) && RunApart(loc, ins, end) && i < j < e && ReadAfter(ins, end, k, e, i, d) && Target(ins[j], c)
    ensures loc(d) != loc(c)
  {
    hide Separated, RunMove, Source, Target, IsRun, RawFrom, DefSeq, UseSeq;
    RunSize(ins, k, e);
    TargetLive(ins, end, k, e, i, j, d);
    NotReadLater(ins, k, e, i, j, d);
    RunMoves(ins, k, e, j);
    RunSets(ins[j], c);
    RunSets(ins[j], d);
    AcrossUnless(ins[j], RawFrom(ins, j + 1, end), d);
    DefAway(loc, ins[j], RawFrom(ins, j + 1, end), c, d);
  }

  lemma AcrossUnless(in_: Instr, raw: set<nat>, t: nat)
    requires RunMove(in_) && t in raw && !Source(in_, t)
    ensures t in Across(in_, raw)
  {
  }

  /** A later source in an earlier destination's home: then the earlier move copies that
      same temporary onto itself. */
  lemma SharedIsSelf(loc: nat -> Loc, ins: seq<Instr>, end: set<nat>, k: nat, e: nat, i: nat, j: nat, d: nat, s: nat)
    requires IsRun(ins, k, e) && RunApart(loc, ins, end) && k <= i < j < e && Target(ins[i], d) && Source(ins[j], s)
    requires loc(d) == loc(s)
    ensures Source(ins[i], s)
  {
    hide Separated, RunMove, Source, Target, IsRun, RawFrom, DefSeq, UseSeq;
    RunSize(ins, k, e);
    SourceLive(ins, end, k, e, i, j, s);
    NotReadLater(ins, k, e, i, j, d);
    RunMoves(ins, k, e, i);
    RunSets(ins[i], d);
    if !Source(ins[i], s) {
      AcrossUnless(ins[i], RawFrom(ins, i + 1, end), s);
      DefAway(loc, ins[i], RawFrom(ins, i + 1, end), d, s);
    }
  }

  // ----- as pairs -----

  function PlaceOf(l: Loc): P.Place {
    match l
    case Reg(r) => P.Reg(r)
    case Slot(s) => P.Mem(0, s)
  }

  /** Where a move goes: its temporary's home, or the outgoing stack area. */
  function DstPlace(loc: nat -> Loc, in_: Instr, i: nat): P.Place {
    if in_.to.Temp? then PlaceOf(loc(in_.to.id)) else P.Mem(1, i)
  }

  /** Where it comes from: a home, a constant, or the incoming stack area. */
  function SrcPlace(loc: nat -> Loc, in_: Instr, i: nat): P.Place {
    if in_.args == [] then P.Mem(2, i)
    else if in_.args[0].Temp? then PlaceOf(loc(in_.args[0].id))
    else P.Const(in_.args[0].code)
  }

  /** Widths and banks, by instruction. */
  datatype Classes = Classes(wide: nat -> bool, float: nat -> bool)

  function PairOfMove(loc: nat -> Loc, c: Classes, in_: Instr, i: nat): P.Pair {
    P.Pair(P.Opd(DstPlace(loc, in_, i), c.wide(i), c.float(i)), P.Opd(SrcPlace(loc, in_, i), c.wide(i), c.float(i)))
  }

  function RunPairs(loc: nat -> Loc, c: Classes, ins: seq<Instr>, k: nat, e: nat): (ps: seq<P.Pair>)
    requires k <= e <= |ins|
    ensures |ps| == e - k && forall x :: 0 <= x < |ps| ==> ps[x] == PairOfMove(loc, c, ins[k + x], k + x)
  {
    seq(e - k, x requires 0 <= x < e - k => PairOfMove(loc, c, ins[k + x], k + x))
  }

  /** Slots belong to one temporary, and scratch registers to none. */
  ghost predicate Private(loc: nat -> Loc) {
    forall t: nat, u: nat :: t != u && loc(t).Slot? ==> loc(t) != loc(u)
  }

  ghost predicate NoScratch(s: P.Scratch, loc: nat -> Loc) {
    forall t: nat :: !P.IsScratch(s, PlaceOf(loc(t)))
  }

  /** A pair that reads what another writes: an earlier one only if it is a self-move. */
  lemma ReadsEarlier(loc: nat -> Loc, c: Classes, ins: seq<Instr>, end: set<nat>, k: nat, e: nat, x: nat, y: nat)
    requires IsRun(ins, k, e) && RunApart(loc, ins, end) && x < y < e - k
    requires SrcPlace(loc, ins[k + y], k + y) == DstPlace(loc, ins[k + x], k + x)
    ensures SrcPlace(loc, ins[k + x], k + x) == DstPlace(loc, ins[k + x], k + x)
  {
    hide IsRun, RunApart;
    RunMoves(ins, k, e, k + x);
    RunMoves(ins, k, e, k + y);
    var d, s := ins[k + x].to.id, ins[k + y].args[0].id;
    assert loc(d) == loc(s);
    SharedIsSelf(loc, ins, end, k, e, k + x, k + y, d, s);
  }

  /** Floats are not moved from memory to memory. */
  ghost predicate NoFloatCopies(loc: nat -> Loc, c: Classes, ins: seq<Instr>, k: nat, e: nat)
    requires k <= e <= |ins|
  {
    forall i :: k <= i < e && c.float(i) ==> !(DstPlace(loc, ins[i], i).Mem? && SrcPlace(loc, ins[i], i).Mem?)
  }

  /** The pairs need no reordering: what a move reads, an earlier one has at most copied
      onto itself. */
  lemma RunOrdered(s: P.Scratch, loc: nat -> Loc, c: Classes, ins: seq<Instr>, end: set<nat>, k: nat, e: nat)
    requires IsRun(ins, k, e) && RunApart(loc, ins, end) && NoScratch(s, loc) && NoFloatCopies(loc, c, ins, k, e)
    ensures P.Ordered(s, RunPairs(loc, c, ins, k, e))
  {
    hide RunApart, IsRun;
    RunSize(ins, k, e);
    var ps := RunPairs(loc, c, ins, k, e);
    forall x | 0 <= x < |ps|
      ensures P.MoveOk(s, ps[x])
    {
      RunMoves(ins, k, e, k + x);
    }
    forall x, y | 0 <= x < y < |ps| && P.Reads(ps[y].src, ps[x].dst)
      ensures P.Same(ps[x])
    {
      ReadsEarlier(loc, c, ins, end, k, e, x, y);
    }
  }

  /** A cycle among the pairs starts at a move of a place onto itself, so among the moves
      that do something there is none. */
  lemma RunHasNoCycle(loc: nat -> Loc, c: Classes, ins: seq<Instr>, end: set<nat>, k: nat, e: nat, cyc: seq<nat>)
    requires IsRun(ins, k, e) && RunApart(loc, ins, end) && P.Cycle(RunPairs(loc, c, ins, k, e), cyc)
    ensures cyc[0] < e - k && P.Same(RunPairs(loc, c, ins, k, e)[cyc[0]])
  {
    hide IsRun, RunApart;
    RunSize(ins, k, e);
    var ps := RunPairs(loc, c, ins, k, e);
    assert P.After(ps, cyc[0], cyc[1]);
    assert cyc[0] < cyc[1];
    ReadsEarlier(loc, c, ins, end, k, e, cyc[0], cyc[1]);
  }

  /** A destination read after the run is the last written at its home. */
  lemma ReadIsLast(loc: nat -> Loc, c: Classes, ins: seq<Instr>, end: set<nat>, k: nat, e: nat, j: nat, d: nat)
    requires IsRun(ins, k, e) && RunApart(loc, ins, end) && ReadAfter(ins, end, k, e, j, d)
    ensures P.LastTo(RunPairs(loc, c, ins, k, e), j - k)
  {
    hide IsRun, RunApart, RawFrom;
    var ps := RunPairs(loc, c, ins, k, e);
    forall x | j - k < x < |ps|
      ensures ps[x].dst.place != ps[j - k].dst.place
    {
      if ins[k + x].to.Temp? {
        ReadApart(loc, ins, end, k, e, j, k + x, d, ins[k + x].to.id);
      }
    }
  }

  /** Emits a run as one parallel move: the moves come out in order, less those of a
      place onto itself; each destination gets the original of the last source moved to
      it, and what is read after the run is that. */
  method EmitRun(s: P.Scratch, loc: nat -> Loc, c: Classes, ins: seq<Instr>, ghost end: set<nat>, k: nat, e: nat) returns (moves: seq<P.Pair>)
    requires IsRun(ins, k, e) && RunApart(loc, ins, end) && s.gp != s.fp
    requires NoScratch(s, loc) && NoFloatCopies(loc, c, ins, k, e)
    ensures moves == P.MovesOf(RunPairs(loc, c, ins, k, e)) && P.LastWins(s, RunPairs(loc, c, ins, k, e), moves)
    ensures forall j: nat, d: nat :: k <= j < e && ReadAfter(ins, end, k, e, j, d) ==> P.LastTo(RunPairs(loc, c, ins, k, e), j - k)
    ensures (forall x :: 0 <= x < e - k ==> P.LastTo(RunPairs(loc, c, ins, k, e), x)) ==> P.Correct(s, RunPairs(loc, c, ins, k, e), moves)
  {
    hide IsRun, RunApart, ReadAfter, P.PairsOk, P.Ordered, P.LastWins, P.LastTo, P.Correct, P.MovesOf, NoScratch, NoFloatCopies;
    RunSize(ins, k, e);
    RunOrdered(s, loc, c, ins, end, k, e);
    var pairs := RunPairs(loc, c, ins, k, e);
    var r := P.ParallelMove(s, pairs);
    moves := r.value;
    forall j: nat, d: nat | k <= j < e && ReadAfter(ins, end, k, e, j, d)
      ensures P.LastTo(pairs, j - k)
    {
      ReadIsLast(loc, c, ins, end, k, e, j, d);
    }
    if forall x :: 0 <= x < |pairs| ==> P.LastTo(pairs, x) {
      AllLast(s, pairs, moves);
    }
  }

  /** When no two moves share a destination, every one is right. */
  lemma AllLast(s: P.Scratch, pairs: seq<P.Pair>, moves: seq<P.Pair>)
    requires P.LastWins(s, pairs, moves) && forall x :: 0 <= x < |pairs| ==> P.LastTo(pairs, x)
    ensures P.Correct(s, pairs, moves)
  {
    hide P.LastTo, P.Exec;
    forall e: P.Env
      ensures P.CorrectAt(s, pairs, moves, e)
    {
      assert P.LastWinsAt(s, pairs, P.Exec(s, moves, e), e);
    }
  }

  // ----- in order -----

  /** A move of a run writes its destination and nothing else. */
  lemma MoveLeaves<V, M>(sem: Sem<V, M>, preserved: set<nat>, loc: nat -> Loc, in_: Instr, ms: MState<V, M>, l: Loc)
    requires RunMove(in_) && forall d :: Target(in_, d) ==> loc(d) != l
    ensures StepM(sem, preserved, loc, in_, ms).store(l) == ms.store(l)
  {
    forall d | d in DefSeq(in_)
      ensures loc(d) != l
    {
      RunSets(in_, d);
    }
    if MoveEnds(in_).Some? {
      RunSets(in_, MoveEnds(in_).value.0);
    } else {
      var (res, mem) := sem.eval(in_, ReadLocs(Before(sem, loc, in_, ms), loc, UseSeq(in_)), ms.mem);
      WritesElsewhere(After(sem, preserved, loc, in_, ms), loc, DefSeq(in_), res, 0, l);
    }
  }

  lemma MoveDelivers<V, M>(sem: Sem<V, M>, preserved: set<nat>, loc: nat -> Loc, in_: Instr, ms: MState<V, M>, d: nat, s: nat)
    requires RunMove(in_) && Target(in_, d) && Source(in_, s)
    ensures StepM(sem, preserved, loc, in_, ms).store(loc(d)) == ms.store(loc(s))
  {
    RunSets(in_, d);
  }

  lemma ExecNext<V, M>(sem: Sem<V, M>, preserved: set<nat>, loc: nat -> Loc, ins: seq<Instr>, i: nat, e: nat, ms: MState<V, M>)
    requires i < e <= |ins|
    ensures ExecM(sem, preserved, loc, ins[i..e], ms) == ExecM(sem, preserved, loc, ins[i + 1..e], StepM(sem, preserved, loc, ins[i], ms))
  {
    assert ins[i..e][1..] == ins[i + 1..e];
  }

  /** From move i on, a location no later destination occupies keeps its contents. */
  lemma {:induction false} RunLeaves<V, M>(sem: Sem<V, M>, preserved: set<nat>, loc: nat -> Loc, ins: seq<Instr>, end: set<nat>, k: nat, e: nat, i: nat,
                                           ms: MState<V, M>, l: Loc)
    requires IsRun(ins, k, e) && k <= i <= e && forall j, d :: i <= j < e && Target(ins[j], d) ==> loc(d) != l
    ensures ExecM(sem, preserved, loc, ins[i..e], ms).store(l) == ms.store(l)
    decreases e - i
  {
    hide IsRun, Target, RunMove, StepM;
    RunSize(ins, k, e);
    if i < e {
      RunMoves(ins, k, e, i);
      MoveLeaves(sem, preserved, loc, ins[i], ms, l);
      ExecNext(sem, preserved, loc, ins, i, e, ms);
      RunLeaves(sem, preserved, loc, ins, end, k, e, i + 1, StepM(sem, preserved, loc, ins[i], ms), l);
    }
  }

  /** A source not yet read is as it was: an earlier move can only have copied it onto
      itself. */
  lemma SourceKept<V, M>(sem: Sem<V, M>, preserved: set<nat>, loc: nat -> Loc, ins: seq<Instr>, end: set<nat>, k: nat, e: nat, i: nat, j: nat,
                         ms: MState<V, M>, s: nat)
    requires IsRun(ins, k, e) && RunApart(loc, ins, end) && k <= i < j < e && Source(ins[j], s) && i < |ins|
    ensures StepM(sem, preserved, loc, ins[i], ms).store(loc(s)) == ms.store(loc(s))
  {
    hide IsRun, RunApart, StepM, RunMove;
    RunMoves(ins, k, e, i);
    if ins[i].to.Temp? && loc(ins[i].to.id) == loc(s) {
      SharedIsSelf(loc, ins, end, k, e, i, j, ins[i].to.id, s);
      MoveDelivers(sem, preserved, loc, ins[i], ms, ins[i].to.id, s);
    } else {
      MoveLeaves(sem, preserved, loc, ins[i], ms, loc(s));
    }
  }

  /** Run in order, a destination at whose home no later move writes too gets its
      source's original value. */
  lemma {:induction false} RunInOrder<V, M>(sem: Sem<V, M>, preserved: set<nat>, loc: nat -> Loc, ins: seq<Instr>, end: set<nat>, k: nat, e: nat,
                                            i: nat, j: nat, ms: MState<V, M>, d: nat, s: nat)
    requires IsRun(ins, k, e) && RunApart(loc, ins, end) && k <= i <= j < e && Target(ins[j], d) && Source(ins[j], s)
    requires forall x, c :: j < x < e && Target(ins[x], c) ==> loc(c) != loc(d)
    ensures ExecM(sem, preserved, loc, ins[i..e], ms).store(loc(d)) == ms.store(loc(s))
    decreases j - i
  {
    hide IsRun, RunApart, StepM, RunMove, Target, Source;
    RunSize(ins, k, e);
    RunMoves(ins, k, e, j);
    ExecNext(sem, preserved, loc, ins, i, e, ms);
    var next := StepM(sem, preserved, loc, ins[i], ms);
    if i < j {
      SourceKept(sem, preserved, loc, ins, end, k, e, i, j, ms, s);
      RunInOrder(sem, preserved, loc, ins, end, k, e, i + 1, j, next, d, s);
    } else {
      MoveDelivers(sem, preserved, loc, ins[j], ms, d, s);
      RunLeaves(sem, preserved, loc, ins, end, k, e, j + 1, next, loc(d));
    }
  }

  /** So does every destination read after the run. */
  lemma ReadInOrder<V, M>(sem: Sem<V, M>, preserved: set<nat>, loc: nat -> Loc, ins: seq<Instr>, end: set<nat>, k: nat, e: nat,
                          j: nat, ms: MState<V, M>, d: nat, s: nat)
    requires IsRun(ins, k, e) && RunApart(loc, ins, end) && ReadAfter(ins, end, k, e, j, d) && Source(ins[j], s)
    ensures ExecM(sem, preserved, loc, ins[k..e], ms).store(loc(d)) == ms.store(loc(s))
  {
    hide IsRun, RunApart, RawFrom, StepM, ExecM, Source, Target;
    forall x, c | j < x < e && Target(ins[x], c)
      ensures loc(c) != loc(d)
    {
      ReadApart(loc, ins, end, k, e, j, x, d, c);
    }
    RunInOrder(sem, preserved, loc, ins, end, k, e, k, j, ms, d, s);
  }

  /** What is emitted for a run leaves in the home of each destination read afterwards
      what running it in order does, in the width the move has. */
  lemma EmittedAsRun<M>(sem: Sem<P.Word, M>, preserved: set<nat>, sc: P.Scratch, loc: nat -> Loc, c: Classes, ins: seq<Instr>, end: set<nat>,
                        k: nat, e: nat, moves: seq<P.Pair>, j: nat, d: nat, t: nat, env: P.Env, ms: MState<P.Word, M>)
    requires IsRun(ins, k, e) && RunApart(loc, ins, end) && ReadAfter(ins, end, k, e, j, d) && ins[j].args == [Temp(t)]
    requires P.LastWins(sc, RunPairs(loc, c, ins, k, e), moves)
    requires forall l: Loc :: ms.store(l) == env.store(match l case Reg(r) => P.Reg(r) case Slot(x) => P.Mem(0, x))
    ensures var w := P.Exec(sc, moves, env)(match loc(d) case Reg(r) => P.Reg(r) case Slot(x) => P.Mem(0, x));
            var v := ExecM(sem, preserved, loc, ins[k..e], ms).store(loc(d));
            v == ms.store(loc(t)) && w.lo == v.lo && (c.wide(j) ==> w.hi == v.hi)
  {
    hide IsRun, RunApart, ReadAfter, P.Exec, P.LastTo, ExecM;
    ReadInOrder(sem, preserved, loc, ins, end, k, e, j, ms, d, t);
    ReadIsLast(loc, c, ins, end, k, e, j, d);
    ReadTarget(ins, end, k, e, j, d);
    var pairs := RunPairs(loc, c, ins, k, e);
    assert P.LastWinsAt(sc, pairs, P.Exec(sc, moves, env), env);
    assert P.Delivered(pairs[j - k], P.Exec(sc, moves, env)(pairs[j - k].dst.place), env);
  }

  lemma ReadTarget(ins: seq<Instr>, end: set<nat>, k: nat, e: nat, j: nat, d: nat)
    requires ReadAfter(ins, end, k, e, j, d)
    ensures k <= j < e <= |ins| && ins[j].to == Temp(d)
  {
  }

  // ----- in an allocated function -----

  /** The runs of an allocated function's blocks are fit to be emitted. */
  lemma AllocatedRuns(f: Func, n: nat, preserved: set<nat>, rpo: seq<nat>, ins: seq<set<nat>>, outs: seq<set<nat>>, a: C.Alloc, s: Saved, i: nat)
    requires Allocatable(f, n) && Allocated(f, n, preserved, rpo, ins, outs, a, s) && i < |rpo|
    ensures rpo[i] < |f.blocks| == |outs|
    ensures RunApart(Home(a), f.blocks[rpo[i]].instrs, End(f.blocks[rpo[i]], outs[rpo[i]])) && Private(Home(a))
  {
    hide IsRpo, IsLiveness, Separated, SavesInserted, RawFrom;
    assert |outs| == |f.blocks| && rpo[i] < |f.blocks|;
    forall k | 0 <= k < |f.blocks[rpo[i]].instrs|
      ensures Separated(Home(a), f.blocks[rpo[i]].instrs[k], RawFrom(f.blocks[rpo[i]].instrs, k + 1, End(f.blocks[rpo[i]], outs[rpo[i]])))
    {
      InstrSeparated(f, rpo, outs, Home(a), i, k);
    }
    forall t: nat, u: nat | t != u && Home(a)(t).Slot?
      ensures Home(a)(t) != Home(a)(u)
    {
      if u < |a.slot| && a.slot[u].Some? {
        SlotsApart(a, t, u);
      }
    }
  }
}
