/** The liveness fixpoint over the compiler's bit sets, which it updates in place
    (analysis/live.go): one live-in and one live-out set a block, and one scratch set. */
module LiveSets {
  import opened Graphs
  import opened Cfg
  import opened Ir
  import opened Bitset
  import opened Liveness

  /** Room for the temporaries below n. */
  ghost predicate Fits(s: TempSet, n: nat) {
    s.words.Length == (n + 63) / 64
  }

  lemma Room(s: TempSet, t: nat, n: nat)
    requires Fits(s, n) && t < n
    ensures t / 64 < s.words.Length
  {
  }

  ghost function Words(sets: seq<TempSet>): (ws: set<array<bv64>>)
    ensures forall i :: 0 <= i < |sets| ==> sets[i].words in ws
  {
    set i | 0 <= i < |sets| :: sets[i].words
  }

  /** What the sets hold. */
  ghost function Views(sets: seq<TempSet>): (v: seq<set<nat>>)
    reads Words(sets)
    ensures |v| == |sets| && forall i :: 0 <= i < |v| ==> v[i] == sets[i].Elems()
  {
    seq(|sets|, i requires 0 <= i < |sets| reads Words(sets) => sets[i].Elems())
  }

  ghost predicate Apart(sets: seq<TempSet>) {
    forall i, j :: 0 <= i < j < |sets| ==> sets[i].words != sets[j].words
  }

  /** No two of a function's sets share their words. */
  ghost predicate Separate(ins: seq<TempSet>, outs: seq<TempSet>, live: TempSet, n: nat) {
    && |ins| == |outs| && Apart(ins) && Apart(outs) && Fits(live, n)
    && (forall i :: 0 <= i < |ins| ==> Fits(ins[i], n) && Fits(outs[i], n) && ins[i].words != live.words && outs[i].words != live.words)
    && (forall i, j :: 0 <= i < |ins| && 0 <= j < |outs| ==> ins[i].words != outs[j].words)
  }

  method AddRefs(s: TempSet, rs: seq<Ref>, ghost n: nat)
    requires Fits(s, n) && forall t :: t in Temps(rs) ==> t < n
    modifies s.words
    ensures s.Elems() == old(s.Elems()) + Set(Temps(rs))
  {
    hide Elements;
    for i := 0 to |rs|
      invariant forall t :: t in s.Elems() <==> t in old(s.Elems()) || Temp(t) in rs[..i]
    {
      assert rs[i] in rs;
      if rs[i].Temp? {
        assert rs[i].id in Temps(rs);
        Room(s, rs[i].id, n);
        var _ := s.Add(rs[i].id);
      }
      assert rs[..i + 1] == rs[..i] + [rs[i]];
    }
    assert rs[..|rs|] == rs;
  }

  method RemoveRefs(s: TempSet, rs: seq<Ref>, ghost n: nat)
    requires Fits(s, n) && forall t :: t in Temps(rs) ==> t < n
    modifies s.words
    ensures s.Elems() == old(s.Elems()) - Set(Temps(rs))
  {
    hide Elements;
    for i := 0 to |rs|
      invariant forall t :: t in s.Elems() <==> t in old(s.Elems()) && Temp(t) !in rs[..i]
    {
      assert rs[i] in rs;
      if rs[i].Temp? {
        assert rs[i].id in Temps(rs);
        Room(s, rs[i].id, n);
        s.Remove(rs[i].id);
      }
      assert rs[..i + 1] == rs[..i] + [rs[i]];
    }
    assert rs[..|rs|] == rs;
  }

  function PhiTos(b: Block): seq<Ref> {
    seq(|b.phis|, i requires 0 <= i < |b.phis| => b.phis[i].to)
  }

  lemma BlockRoom(b: Block, n: nat)
    requires BlockTempsBelow(b, n)
    ensures forall t :: t in Temps([b.jmpArg] + b.jmpArgs) ==> t < n
    ensures Temps(PhiTos(b)) == PhiDefs(b) && forall t :: t in Temps(PhiTos(b)) ==> t < n
  {
    assert TermUses(b) == Temps([b.jmpArg] + b.jmpArgs);
  }

  lemma InstrRoom(b: Block, k: nat, n: nat)
    requires BlockTempsBelow(b, n) && k < |b.instrs|
    ensures forall t :: t in Temps([b.instrs[k].to] + b.instrs[k].defs) || t in Temps(Uses(b.instrs[k])) ==> t < n
  {
    assert DefSeq(b.instrs[k]) == Temps([b.instrs[k].to] + b.instrs[k].defs);
    assert UseSeq(b.instrs[k]) == Temps(Uses(b.instrs[k]));
  }

  lemma WalkStep(ins: seq<Instr>, k: nat, end: set<nat>)
    requires k < |ins|
    ensures LiveFrom(ins, k, end) == if ins[k].op.IsLifetime() then LiveFrom(ins, k + 1, end)
            else LiveFrom(ins, k + 1, end) - Set(Temps([ins[k].to] + ins[k].defs)) + Set(Temps(Uses(ins[k])))
  {
  }

  /** The backward walk of one block, from its live-out set, in the scratch set. */
  method WalkBlock(b: Block, out: TempSet, live: TempSet, ghost n: nat)
    requires BlockTempsBelow(b, n) && Fits(out, n) && Fits(live, n) && out.words != live.words
    modifies live.words
    ensures live.Elems() == BlockIn(b, out.Elems())
  {
    hide Elements, BlockTempsBelow, Transfer;
    BlockRoom(b, n);
    live.SetTo(out);
    AddRefs(live, [b.jmpArg] + b.jmpArgs, n);
    var k := |b.instrs|;
    ghost var end := live.Elems();
    while k > 0
      invariant 0 <= k <= |b.instrs| && live.Elems() == LiveFrom(b.instrs, k, end)
    {
      k := k - 1;
      var in_ := b.instrs[k];
      if in_.op.IsLifetime() {
        WalkStep(b.instrs, k, end);
        continue;
      }
      InstrRoom(b, k, n);
      RemoveRefs(live, [in_.to] + in_.defs, n);
      AddRefs(live, Uses(in_), n);
      WalkStep(b.instrs, k, end);
    }
    RemoveRefs(live, PhiTos(b), n);
  }

  /** What flows out along the edge to s: its live-in set and the operands its phis
      take from b. */
  method FlowFrom(f: Func, ins: seq<TempSet>, b: nat, s: nat, out: TempSet, ghost n: nat)
    requires |ins| == |f.blocks| && s < |f.blocks| && WellFormedFunc(f) && TempsBelow(f, n)
    requires Fits(out, n) && forall i :: 0 <= i < |ins| ==> Fits(ins[i], n) && ins[i].words != out.words
    modifies out.words
    ensures forall t :: t in out.Elems() <==> t in old(out.Elems()) || FlowsOn(f, Views(ins), b, s, t)
  {
    hide Elements;
    ghost var start, from := out.Elems(), ins[s].Elems();
    var _ := out.Union(ins[s]);
    var phis := f.blocks[s].phis;
    assert BlockTempsBelow(f.blocks[s], n);
    for j := 0 to |phis|
      invariant forall t :: t in out.Elems() <==> (t in start || t in from || exists x, k :: 0 <= x < j && TakesAt(phis[x], k, b, t))
    {
      var p := phis[j];
      ghost var before := out.Elems();
      for k := 0 to |p.blocks|
        invariant forall t :: t in out.Elems() <==> t in before || exists x :: x < k && TakesAt(p, x, b, t)
      {
        if p.blocks[k] == Some(b) && p.args[k].Temp? {
          assert TakesAt(p, k, b, p.args[k].id);
          Room(out, p.args[k].id, n);
          var _ := out.Add(p.args[k].id);
        }
      }
    }
    assert Views(ins)[s] == from;
  }

  /** The live-out set of b, accumulated in place from its successors. */
  method Gather(f: Func, ins: seq<TempSet>, b: nat, out: TempSet, ghost n: nat)
    requires |ins| == |f.blocks| && b < |f.blocks| && WellFormedFunc(f) && TempsBelow(f, n)
    requires Fits(out, n) && forall i :: 0 <= i < |ins| ==> Fits(ins[i], n) && ins[i].words != out.words
    modifies out.words
    ensures forall t :: t in out.Elems() <==> t in old(out.Elems()) || FlowsOut(f, Views(ins), b, t)
  {
    hide FlowsOn;
    ghost var start, views := out.Elems(), Views(ins);
    var g: Graph := G(f);
    var ss := g[b];
    FullWellFormed(Exec(f), Synthetic(f));
    for k := 0 to |ss|
      invariant Views(ins) == views
      invariant forall t :: t in out.Elems() ==> t in start || FlowsOut(f, views, b, t)
      invariant start <= out.Elems()
      invariant forall x, t :: 0 <= x < k && ss[x].Some? && FlowsOn(f, views, b, ss[x].value, t) ==> t in out.Elems()
    {
      if ss[k].None? {
        continue;
      }
      var s := ss[k].value;
      assert Edge(g, b, s);
      FlowFrom(f, ins, b, s, out, n);
    }
    forall t | FlowsOut(f, views, b, t)
      ensures t in out.Elems()
    {
      var s: nat :| Edge(g, b, s) && FlowsOn(f, views, b, s, t);
      var x :| 0 <= x < |ss| && ss[x] == Some(s);
    }
  }

  /** One block's turn in a round. */
  method Turn(f: Func, ins: seq<TempSet>, outs: seq<TempSet>, live: TempSet, b: nat, ghost n: nat) returns (grew: bool)
    requires WellFormedFunc(f) && TempsBelow(f, n) && b < |f.blocks| == |ins| && Separate(ins, outs, live, n)
    requires Sound(f, Views(ins), Views(outs)) && Bounded(Views(ins), Views(outs), n)
    modifies ins[b].words, outs[b].words, live.words
    ensures Sound(f, Views(ins), Views(outs)) && Bounded(Views(ins), Views(outs), n)
    ensures !grew ==> Views(ins) == old(Views(ins)) && Settled(f, Views(ins), Views(outs), b)
    ensures !grew ==> forall c :: 0 <= c < |f.blocks| && c != b && Settled(f, old(Views(ins)), old(Views(outs)), c) ==>
              Settled(f, Views(ins), Views(outs), c)
    ensures grew ==> Missing(Upto(n), Views(ins)) < Missing(Upto(n), old(Views(ins)))
  {
    hide Sound, Settled, Bounded, BlockIn, FlowsOut, Missing, WellFormedFunc, Bitset.Elements;
    ghost var ins0, outs0 := Views(ins), Views(outs);
    Gather(f, ins, b, outs[b], n);
    assert Views(ins) == ins0;
    ghost var out := outs[b].Elems();
    assert Views(outs) == outs0[b := out];
    assert BlockTempsBelow(f.blocks[b], n);
    WalkBlock(f.blocks[b], outs[b], live, n);
    assert live.Elems() == BlockIn(f.blocks[b], out);
    grew := ins[b].Union(live);
    assert Views(outs) == outs0[b := out];
    assert Views(ins) == ins0[b := ins0[b] + BlockIn(f.blocks[b], out)];
    TurnMeans(f, ins0, outs0, b, out, n);
  }

  /** One round, near-exit blocks first. */
  method Round(f: Func, rpo: seq<nat>, ins: seq<TempSet>, outs: seq<TempSet>, live: TempSet, ghost n: nat) returns (changed: bool)
    requires WellFormedFunc(f) && TempsBelow(f, n) && Distinct(rpo) && forall b :: b in rpo ==> b < |f.blocks|
    requires |ins| == |f.blocks| && Separate(ins, outs, live, n)
    requires Sound(f, Views(ins), Views(outs)) && Bounded(Views(ins), Views(outs), n)
    modifies Words(ins), Words(outs), live.words
    ensures Sound(f, Views(ins), Views(outs)) && Bounded(Views(ins), Views(outs), n)
    ensures !changed ==> Views(ins) == old(Views(ins)) && forall b :: b in rpo ==> Settled(f, Views(ins), Views(outs), b)
    ensures changed ==> Missing(Upto(n), Views(ins)) < Missing(Upto(n), old(Views(ins)))
  {
    hide Sound, Settled, Bounded, TempsBelow, WellFormedFunc, Missing;
    changed := false;
    var i := |rpo|;
    assert forall k :: 0 <= k < |rpo| ==> rpo[k] in rpo;
    while i > 0
      invariant 0 <= i <= |rpo|
      invariant Sound(f, Views(ins), Views(outs)) && Bounded(Views(ins), Views(outs), n)
      invariant !changed ==> Views(ins) == old(Views(ins)) && forall k :: i <= k < |rpo| ==> Settled(f, Views(ins), Views(outs), rpo[k])
      invariant changed ==> Missing(Upto(n), Views(ins)) < Missing(Upto(n), old(Views(ins)))
    {
      i := i - 1;
      var grew := Turn(f, ins, outs, live, rpo[i], n);
      changed := changed || grew;
    }
  }

  ghost function Nothing(count: nat): seq<set<nat>> {
    seq(count, _ => {})
  }

  method Empties(count: nat, n: nat) returns (sets: seq<TempSet>)
    ensures |sets| == count && Apart(sets) && (forall i :: 0 <= i < count ==> Fits(sets[i], n) && fresh(sets[i].words))
    ensures Views(sets) == Nothing(count)
  {
    sets := [];
    for i := 0 to count
      invariant |sets| == i && Apart(sets) && forall k :: 0 <= k < i ==> Fits(sets[k], n) && fresh(sets[k].words) && sets[k].Elems() == {}
    {
      var s := new TempSet(n);
      sets := sets + [s];
    }
  }

  method Start(count: nat, n: nat) returns (ins: seq<TempSet>, outs: seq<TempSet>, live: TempSet)
    ensures |ins| == count && Separate(ins, outs, live, n) && Views(ins) == Views(outs) == Nothing(count)
    ensures fresh(Words(ins)) && fresh(Words(outs)) && fresh(live.words)
  {
    hide Elements;
    ins := Empties(count, n);
    outs := Empties(count, n);
    assert Views(ins) == Nothing(count);
    live := new TempSet(n);
    assert Views(ins) == Nothing(count);
  }

  lemma EmptySound(f: Func, n: nat)
    ensures var none := Nothing(|f.blocks|); Sound(f, none, none) && Bounded(none, none, n)
  {
  }

  lemma RpoInRange(f: Func, rpo: seq<nat>)
    requires WellFormedFunc(f) && IsRpo(G(f), f.start, rpo)
    ensures Distinct(rpo) && forall b :: b in rpo ==> b < |f.blocks|
  {
    FullWellFormed(Exec(f), Synthetic(f));
    forall b | b in rpo
      ensures b < |f.blocks|
    {
      ReachInRange(G(f), f.start.value, b);
    }
  }

  lemma AllExact(f: Func, rpo: seq<nat>, ins: seq<set<nat>>, outs: seq<set<nat>>)
    requires IsRpo(G(f), f.start, rpo) && Sound(f, ins, outs)
    requires forall b :: b in rpo ==> b < |f.blocks| && Settled(f, ins, outs, b)
    ensures IsLiveness(f, rpo, ins, outs)
  {
    hide LiveIn, LiveOut, Settled, IsRpo;
    forall b, t | b in rpo && b < |f.blocks|
      ensures t in ins[b] <==> LiveIn(f, b, t)
      ensures t in outs[b] <==> LiveOut(f, b, t)
    {
      Exact(f, rpo, ins, outs, b, t);
    }
  }

  /** Rounds until no live-in set grows. */
  method ComputeLiveness(f: Func, rpo: seq<nat>, n: nat) returns (ins: seq<TempSet>, outs: seq<TempSet>)
    requires WellFormedFunc(f) && TempsBelow(f, n) && IsRpo(G(f), f.start, rpo)
    ensures IsLiveness(f, rpo, Views(ins), Views(outs))
  {
    hide Settled, LiveIn, LiveOut, Sound, Bounded, Missing, IsRpo, Elements, Separate, Nothing, TempsBelow;
    var live;
    ins, outs, live := Start(|f.blocks|, n);
    RpoInRange(f, rpo);
    EmptySound(f, n);
    var changed := true;
    while changed
      invariant Sound(f, Views(ins), Views(outs)) && Bounded(Views(ins), Views(outs), n)
      invariant !changed ==> forall b :: b in rpo ==> Settled(f, Views(ins), Views(outs), b)
      decreases Missing(Upto(n), Views(ins)), changed
    {
      changed := Round(f, rpo, ins, outs, live, n);
    }
    AllExact(f, rpo, Views(ins), Views(outs));
  }

  /** The sets' members, for the passes that read them. */
  method Contents(sets: seq<TempSet>) returns (r: seq<set<nat>>)
    ensures r == Views(sets)
  {
    r := [];
    for i := 0 to |sets|
      invariant |r| == i && forall k :: 0 <= k < i ==> r[k] == sets[k].Elems()
    {
      var ids := sets[i].Members();
      r := r + [set t | t in ids];
    }
  }

  /** What is live at the end of each block. */
  method LiveOuts(f: Func, rpo: seq<nat>, n: nat) returns (outs: seq<set<nat>>, ghost ins: seq<set<nat>>)
    requires WellFormedFunc(f) && TempsBelow(f, n) && IsRpo(G(f), f.start, rpo)
    ensures IsLiveness(f, rpo, ins, outs)
  {
    hide IsLiveness, IsRpo;
    var inSets, outSets := ComputeLiveness(f, rpo, n);
    ins := Views(inSets);
    ghost var live := Views(outSets);
    outs := Contents(outSets);
    assert outs == live;
  }
}
