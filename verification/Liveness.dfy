/** Block-level liveness by backward dataflow (analysis/live.go), against paths. */
module Liveness {
  import opened Graphs
  import opened Cfg
  import opened Ir

  // ----- liveness by paths -----

  /** Instruction i of the block reads t, and nothing before it writes t. Lifetime
      markers neither read nor write. */
  ghost predicate ReadFirst(ins: seq<Instr>, i: nat, t: nat) {
    && i < |ins| && !ins[i].op.IsLifetime() && t in UseSeq(ins[i])
    && forall j :: 0 <= j < i ==> !Writes(ins[j], t)
  }

  predicate Writes(in_: Instr, t: nat) {
    !in_.op.IsLifetime() && t in DefSeq(in_)
  }

  ghost predicate Unwritten(ins: seq<Instr>, t: nat) {
    forall j :: 0 <= j < |ins| ==> !Writes(ins[j], t)
  }

  /** The value t has on entry is read in the block. */
  ghost predicate Exposed(b: Block, t: nat) {
    && t !in PhiDefs(b)
    && ((exists i :: ReadFirst(b.instrs, i, t)) || (Unwritten(b.instrs, t) && t in TermUses(b)))
  }

  /** The value t has on entry is its value on exit. */
  ghost predicate Passes(b: Block, t: nat) {
    t !in PhiDefs(b) && Unwritten(b.instrs, t)
  }

  /** A phi of b takes t on the edge from a. */
  ghost predicate EdgeUse(f: Func, a: nat, b: nat, t: nat)
    requires b < |f.blocks|
  {
    exists j, k :: 0 <= j < |f.blocks[b].phis| && TakesAt(f.blocks[b].phis[j], k, a, t)
  }

  ghost predicate TakesAt(p: Phi, k: int, a: nat, t: nat) {
    0 <= k < |p.blocks| && k < |p.args| && p.blocks[k] == Some(a) && p.args[k] == Temp(t)
  }

  /** Along p, from the exit of its first block, t is read at its last edge or block
      and not written on the way. */
  ghost predicate LiveVia(f: Func, p: seq<nat>, t: nat) {
    && |p| >= 2 && IsPath(G(f), p) && (forall i :: 0 <= i < |p| ==> p[i] < |f.blocks|)
    && (forall i :: 0 < i < |p| - 1 ==> Passes(f.blocks[p[i]], t))
    && (EdgeUse(f, p[|p| - 2], p[|p| - 1], t) || Exposed(f.blocks[p[|p| - 1]], t))
  }

  ghost predicate LiveOut(f: Func, b: nat, t: nat) {
    exists p :: LiveVia(f, p, t) && p[0] == b
  }

  ghost predicate LiveIn(f: Func, b: nat, t: nat) {
    b < |f.blocks| && (Exposed(f.blocks[b], t) || (Passes(f.blocks[b], t) && LiveOut(f, b, t)))
  }

  // ----- the transfer functions -----

  function Set(ts: seq<nat>): (s: set<nat>)
    ensures forall t :: t in s <==> t in ts
  {
    set t | t in ts
  }

  function Transfer(live: set<nat>, in_: Instr): set<nat> {
    if in_.op.IsLifetime() then live else live - Set(DefSeq(in_)) + Set(UseSeq(in_))
  }

  /** The live set before instruction k, given the one at the end. */
  function LiveFrom(ins: seq<Instr>, k: nat, end: set<nat>): set<nat>
    requires k <= |ins|
    decreases |ins| - k
  {
    if k == |ins| then end else Transfer(LiveFrom(ins, k + 1, end), ins[k])
  }

  function BlockIn(b: Block, out: set<nat>): set<nat> {
    LiveFrom(b.instrs, 0, out + Set(TermUses(b))) - Set(PhiDefs(b))
  }

  /** The walk's set before k: read first from k on, or unwritten from k on and in the
      end set. */
  lemma {:induction false} LiveFromIs(ins: seq<Instr>, k: nat, end: set<nat>, t: nat)
    requires k <= |ins|
    ensures t in LiveFrom(ins, k, end) <==>
            (exists i :: ReadFirst(ins[k..], i, t)) || (Unwritten(ins[k..], t) && t in end)
    decreases |ins| - k
  {
    if k < |ins| {
      LiveFromIs(ins, k + 1, end, t);
      assert ins[k..] == [ins[k]] + ins[k + 1..];
      ReadStep(ins[k], ins[k + 1..], t);
      UnwrittenStep(ins[k], ins[k + 1..], t);
      TransferIs(LiveFrom(ins, k + 1, end), ins[k], t);
    } else {
      assert ins[k..] == [];
    }
  }

  lemma TransferIs(live: set<nat>, in_: Instr, t: nat)
    ensures t in Transfer(live, in_) <==> (!in_.op.IsLifetime() && t in UseSeq(in_)) || (!Writes(in_, t) && t in live)
  {
    hide UseSeq, DefSeq;
  }

  lemma UnwrittenStep(in_: Instr, b: seq<Instr>, t: nat)
    ensures Unwritten([in_] + b, t) <==> !Writes(in_, t) && Unwritten(b, t)
  {
    hide Writes;
    var a := [in_] + b;
    assert a[0] == in_;
    assert forall j :: 0 <= j < |b| ==> b[j] == a[j + 1];
    assert forall j :: 0 < j < |a| ==> a[j] == b[j - 1];
  }

  lemma ReadStep(in_: Instr, b: seq<Instr>, t: nat)
    ensures (exists i :: ReadFirst([in_] + b, i, t)) <==>
            (!in_.op.IsLifetime() && t in UseSeq(in_)) || (!Writes(in_, t) && exists i :: ReadFirst(b, i, t))
  {
    hide Writes, UseSeq;
    var a := [in_] + b;
    if i: nat :| ReadFirst(b, i, t) {
      if !Writes(in_, t) {
        assert ReadFirst(a, i + 1, t);
      }
    }
    if i: nat :| ReadFirst(a, i, t) {
      if i > 0 {
        assert !Writes(a[0], t);
        forall j | 0 <= j < i - 1
          ensures !Writes(b[j], t)
        {
          assert a[j + 1] == b[j];
        }
        assert ReadFirst(b, i - 1, t);
      }
    }
    if t in UseSeq(in_) && !in_.op.IsLifetime() {
      assert ReadFirst(a, 0, t);
    }
  }

  lemma BlockInIs(b: Block, out: set<nat>, t: nat)
    ensures t in BlockIn(b, out) <==> Exposed(b, t) || (Passes(b, t) && t in out)
  {
    LiveFromIs(b.instrs, 0, out + Set(TermUses(b)), t);
    assert b.instrs[0..] == b.instrs;
  }

  // ----- extending paths -----

  lemma LiveInSuccessor(f: Func, a: nat, b: nat, t: nat)
    requires Edge(G(f), a, b) && a < |f.blocks| && LiveIn(f, b, t)
    ensures LiveOut(f, a, t)
  {
    hide Exposed, Passes, EdgeUse;
    if Exposed(f.blocks[b], t) {
      assert LiveVia(f, [a, b], t);
    } else {
      var p :| LiveVia(f, p, t) && p[0] == b;
      LiveViaLonger(f, p, a, b, t);
    }
  }

  lemma LiveViaLonger(f: Func, p: seq<nat>, a: nat, b: nat, t: nat)
    requires LiveVia(f, p, t) && p[0] == b && Edge(G(f), a, b) && a < |f.blocks| && Passes(f.blocks[b], t)
    ensures LiveVia(f, [a] + p, t)
  {
    hide Exposed, Passes, EdgeUse;
    PathPrepend(G(f), p, a, b, p[|p| - 1]);
    var q := [a] + p;
    assert q[|q| - 2] == p[|p| - 2] && q[|q| - 1] == p[|p| - 1];
    forall i | 0 < i < |q| - 1
      ensures Passes(f.blocks[q[i]], t)
    {
      assert q[i] == p[i - 1];
    }
  }

  lemma EdgeUseIsLive(f: Func, a: nat, b: nat, t: nat)
    requires Edge(G(f), a, b) && a < |f.blocks| && b < |f.blocks| && EdgeUse(f, a, b, t)
    ensures LiveOut(f, a, t)
  {
    assert LiveVia(f, [a, b], t);
  }

  // ----- the fixpoint -----

  /** Blocks' sets hold only what is live. */
  ghost predicate Sound(f: Func, ins: seq<set<nat>>, outs: seq<set<nat>>) {
    && |ins| == |f.blocks| == |outs|
    && (forall b, t :: 0 <= b < |ins| && t in ins[b] ==> LiveIn(f, b, t))
    && (forall b, t :: 0 <= b < |outs| && t in outs[b] ==> LiveOut(f, b, t))
  }

  /** Block b's sets already hold what its successors and its own body demand. */
  ghost predicate Settled(f: Func, ins: seq<set<nat>>, outs: seq<set<nat>>, b: nat)
    requires |ins| == |f.blocks| == |outs| && b < |f.blocks|
  {
    && (forall s: nat :: Edge(G(f), b, s) && s < |f.blocks| ==> Demanded(f, ins, outs, b, s))
    && BlockIn(f.blocks[b], outs[b]) <= ins[b]
  }

  ghost predicate Demanded(f: Func, ins: seq<set<nat>>, outs: seq<set<nat>>, b: nat, s: nat)
    requires |ins| == |f.blocks| == |outs| && b < |f.blocks| && s < |f.blocks|
  {
    ins[s] <= outs[b] && forall t :: EdgeUse(f, b, s, t) ==> t in outs[b]
  }

  /** Live along a path from a settled block: the sets hold it. */
  lemma {:induction false} SettledHolds(f: Func, ins: seq<set<nat>>, outs: seq<set<nat>>, all: set<nat>, p: seq<nat>, t: nat)
    requires |ins| == |f.blocks| == |outs| && LiveVia(f, p, t) && p[0] in all
    requires forall b :: b in all ==> b < |f.blocks| && Settled(f, ins, outs, b)
    requires forall a, b :: a in all && Edge(G(f), a, b) ==> b in all
    ensures t in outs[p[0]]
    decreases |p|
  {
    var a, b := p[0], p[1];
    assert Edge(G(f), a, b);
    assert Demanded(f, ins, outs, a, b);
    if |p| > 2 {
      var q := p[1..];
      PathSuffix(G(f), p, 1);
      assert q[|q| - 2] == p[|p| - 2] && q[|q| - 1] == p[|p| - 1];
      assert Passes(f.blocks[b], t);
      assert LiveVia(f, q, t);
      SettledHolds(f, ins, outs, all, q, t);
      BlockInIs(f.blocks[b], outs[b], t);
      assert Settled(f, ins, outs, b);
    } else if Exposed(f.blocks[b], t) {
      BlockInIs(f.blocks[b], outs[b], t);
      assert Settled(f, ins, outs, b);
    }
  }

  // ----- one block -----

  method AddTemps(live: set<nat>, rs: seq<Ref>) returns (r: set<nat>)
    ensures r == live + Set(Temps(rs))
  {
    r := live;
    for i := 0 to |rs|
      invariant forall t :: t in r <==> t in live || Temp(t) in rs[..i]
    {
      if rs[i].Temp? {
        r := r + {rs[i].id};
      }
      assert rs[..i + 1] == rs[..i] + [rs[i]];
    }
    assert rs[..|rs|] == rs;
  }

  method RemoveTemps(live: set<nat>, rs: seq<Ref>) returns (r: set<nat>)
    ensures r == live - Set(Temps(rs))
  {
    r := live;
    for i := 0 to |rs|
      invariant forall t :: t in r <==> t in live && Temp(t) !in rs[..i]
    {
      if rs[i].Temp? {
        r := r - {rs[i].id};
      }
      assert rs[..i + 1] == rs[..i] + [rs[i]];
    }
    assert rs[..|rs|] == rs;
  }

  // ----- bounds -----

  /** Every temporary read or written anywhere is below n. */
  ghost predicate TempsBelow(f: Func, n: nat) {
    forall b :: 0 <= b < |f.blocks| ==> BlockTempsBelow(f.blocks[b], n)
  }

  ghost predicate BlockTempsBelow(b: Block, n: nat) {
    && (forall i, t :: 0 <= i < |b.instrs| && t in UseSeq(b.instrs[i]) ==> t < n)
    && (forall i, t :: 0 <= i < |b.instrs| && t in DefSeq(b.instrs[i]) ==> t < n)
    && (forall t :: t in TermUses(b) ==> t < n)
    && (forall t :: t in PhiDefs(b) ==> t < n)
    && (forall j, k :: 0 <= j < |b.phis| && 0 <= k < |b.phis[j].args| && b.phis[j].args[k].Temp? ==> b.phis[j].args[k].id < n)
  }

  lemma {:induction false} LiveFromBelow(ins: seq<Instr>, k: nat, end: set<nat>, n: nat)
    requires k <= |ins| && end <= Upto(n) && forall i, t :: 0 <= i < |ins| && t in UseSeq(ins[i]) ==> t < n
    ensures LiveFrom(ins, k, end) <= Upto(n)
    decreases |ins| - k
  {
    if k < |ins| {
      LiveFromBelow(ins, k + 1, end, n);
    }
  }

  lemma BlockInBelow(b: Block, out: set<nat>, n: nat)
    requires BlockTempsBelow(b, n) && out <= Upto(n)
    ensures BlockIn(b, out) <= Upto(n)
  {
    LiveFromBelow(b.instrs, 0, out + Set(TermUses(b)), n);
  }

  // ----- the whole function -----

  ghost predicate FlowsOn(f: Func, ins: seq<set<nat>>, b: nat, s: nat, t: nat) {
    s < |f.blocks| && s < |ins| && (t in ins[s] || EdgeUse(f, b, s, t))
  }

  ghost predicate FlowsOut(f: Func, ins: seq<set<nat>>, b: nat, t: nat) {
    exists s: nat :: Edge(G(f), b, s) && FlowsOn(f, ins, b, s, t)
  }

  /** One block's turn keeps the sets sound. */
  lemma TurnSound(f: Func, ins: seq<set<nat>>, outs: seq<set<nat>>, b: nat, out: set<nat>)
    requires Sound(f, ins, outs) && b < |f.blocks| && WellFormedFunc(f)
    requires forall t :: t in out <==> t in outs[b] || FlowsOut(f, ins, b, t)
    ensures Sound(f, ins[b := ins[b] + BlockIn(f.blocks[b], out)], outs[b := out])
  {
    hide LiveIn, LiveOut, EdgeUse, BlockIn;
    forall t | t in out
      ensures LiveOut(f, b, t)
    {
      if FlowsOut(f, ins, b, t) {
        var s: nat :| Edge(G(f), b, s) && FlowsOn(f, ins, b, s, t);
        if t in ins[s] {
          LiveInSuccessor(f, b, s, t);
        } else {
          EdgeUseIsLive(f, b, s, t);
        }
      }
    }
    forall t | t in BlockIn(f.blocks[b], out)
      ensures LiveIn(f, b, t)
    {
      InIsLive(f, b, out, t);
    }
  }

  lemma InIsLive(f: Func, b: nat, out: set<nat>, t: nat)
    requires b < |f.blocks| && t in BlockIn(f.blocks[b], out) && (t in out ==> LiveOut(f, b, t))
    ensures LiveIn(f, b, t)
  {
    BlockInIs(f.blocks[b], out, t);
  }

  lemma TurnSettles(f: Func, ins: seq<set<nat>>, outs: seq<set<nat>>, b: nat, out: set<nat>)
    requires |ins| == |f.blocks| == |outs| && b < |f.blocks|
    requires forall t :: FlowsOut(f, ins, b, t) ==> t in out
    requires BlockIn(f.blocks[b], out) <= ins[b]
    ensures Settled(f, ins, outs[b := out], b)
  {
    hide EdgeUse, BlockIn;
    var outs' := outs[b := out];
    forall s: nat | Edge(G(f), b, s) && s < |f.blocks|
      ensures Demanded(f, ins, outs', b, s)
    {
      forall t | t in ins[s] || EdgeUse(f, b, s, t)
        ensures t in out
      {
        assert FlowsOn(f, ins, b, s, t);
      }
    }
  }

  lemma SettledKept(f: Func, ins: seq<set<nat>>, outs: seq<set<nat>>, b: nat, out: set<nat>, c: nat)
    requires |ins| == |f.blocks| == |outs| && b < |f.blocks| && c < |f.blocks| && c != b && Settled(f, ins, outs, c)
    ensures Settled(f, ins, outs[b := out], c)
  {
    hide EdgeUse, BlockIn;
    forall s: nat | Edge(G(f), c, s) && s < |f.blocks|
      ensures Demanded(f, ins, outs[b := out], c, s)
    {
      assert Demanded(f, ins, outs, c, s);
    }
  }

  ghost predicate Bounded(ins: seq<set<nat>>, outs: seq<set<nat>>, n: nat) {
    && (forall b :: 0 <= b < |ins| ==> ins[b] <= Upto(n))
    && (forall b :: 0 <= b < |outs| ==> outs[b] <= Upto(n))
  }

  lemma OutBelow(f: Func, ins: seq<set<nat>>, outs: seq<set<nat>>, b: nat, out: set<nat>, n: nat)
    requires |ins| == |f.blocks| == |outs| && b < |f.blocks| && TempsBelow(f, n) && Bounded(ins, outs, n)
    requires forall t :: t in out <==> t in outs[b] || FlowsOut(f, ins, b, t)
    ensures out <= Upto(n)
  {
    forall t | t in out
      ensures t < n
    {
      if FlowsOut(f, ins, b, t) {
        var s: nat :| Edge(G(f), b, s) && FlowsOn(f, ins, b, s, t);
        if t !in ins[s] {
          assert BlockTempsBelow(f.blocks[s], n);
        } else {
          assert ins[s] <= Upto(n);
        }
      } else {
        assert outs[b] <= Upto(n);
      }
    }
  }

  /** One block's turn in a round: its live-out set becomes `out`, and what it needs on
      entry is added to its live-in set. */
  lemma TurnMeans(f: Func, ins: seq<set<nat>>, outs: seq<set<nat>>, b: nat, out: set<nat>, n: nat)
    requires WellFormedFunc(f) && TempsBelow(f, n) && b < |f.blocks| && Sound(f, ins, outs) && Bounded(ins, outs, n)
    requires |ins| == |f.blocks| == |outs| && forall t :: t in out <==> t in outs[b] || FlowsOut(f, ins, b, t)
    ensures var live := BlockIn(f.blocks[b], out); var ins' := ins[b := ins[b] + live]; var outs' := outs[b := out];
            && Sound(f, ins', outs') && Bounded(ins', outs', n)
            && (live <= ins[b] ==> ins' == ins && Settled(f, ins', outs', b))
            && (live <= ins[b] ==> forall c :: 0 <= c < |f.blocks| && c != b && Settled(f, ins, outs, c) ==> Settled(f, ins', outs', c))
            && (!(live <= ins[b]) ==> Missing(Upto(n), ins') < Missing(Upto(n), ins))
  {
    hide Settled, BlockIn, FlowsOut, LiveIn, LiveOut;
    var live := BlockIn(f.blocks[b], out);
    TurnSound(f, ins, outs, b, out);
    OutBelow(f, ins, outs, b, out, n);
    assert BlockTempsBelow(f.blocks[b], n);
    BlockInBelow(f.blocks[b], out, n);
    if live <= ins[b] {
      assert ins[b] + live == ins[b];
      assert ins[b := ins[b] + live] == ins;
      TurnSettles(f, ins, outs, b, out);
      forall c | 0 <= c < |f.blocks| && c != b && Settled(f, ins, outs, c)
        ensures Settled(f, ins, outs[b := out], c)
      {
        SettledKept(f, ins, outs, b, out, c);
      }
    } else {
      MissingShrinks(Upto(n), ins, b, ins[b] + live);
    }
  }

  /** The exact liveness of every reachable block. */
  ghost predicate IsLiveness(f: Func, rpo: seq<nat>, ins: seq<set<nat>>, outs: seq<set<nat>>) {
    && |ins| == |f.blocks| == |outs|
    && (forall b, t :: b in rpo && b < |f.blocks| ==> (t in ins[b] <==> LiveIn(f, b, t)))
    && (forall b, t :: b in rpo && b < |f.blocks| ==> (t in outs[b] <==> LiveOut(f, b, t)))
  }

  lemma Exact(f: Func, rpo: seq<nat>, ins: seq<set<nat>>, outs: seq<set<nat>>, b: nat, t: nat)
    requires IsRpo(G(f), f.start, rpo) && Sound(f, ins, outs) && b in rpo && b < |f.blocks|
    requires forall c :: c in rpo ==> c < |f.blocks| && Settled(f, ins, outs, c)
    ensures t in ins[b] <==> LiveIn(f, b, t)
    ensures t in outs[b] <==> LiveOut(f, b, t)
  {
    hide Exposed, Passes, EdgeUse;
    if LiveOut(f, b, t) {
      var p :| LiveVia(f, p, t) && p[0] == b;
      var all := set c | c in rpo;
      forall x, y | x in all && Edge(G(f), x, y)
        ensures y in all
      {
        ReachStep(G(f), f.start.value, x, y);
      }
      SettledHolds(f, ins, outs, all, p, t);
    }
    if LiveIn(f, b, t) {
      BlockInIs(f.blocks[b], outs[b], t);
      assert Settled(f, ins, outs, b);
    }
  }

  // ----- on the fields -----

  /** An instruction leaves t alone: it is a lifetime marker, or t is none of its results. */
  lemma WritesIs(in_: Instr, t: nat)
    ensures Writes(in_, t) <==> !in_.op.LifeStart? && !in_.op.LifeEnd? && (in_.to == Temp(t) || Temp(t) in in_.defs)
  {
    ReadsAndWrites(in_, t);
  }

  /** t passes through a block none of whose phis and instructions write it. */
  lemma PassesIs(b: Block, t: nat)
    ensures Passes(b, t) <==>
            ((forall j :: 0 <= j < |b.phis| ==> b.phis[j].to != Temp(t))
             && forall k :: 0 <= k < |b.instrs| ==>
                  b.instrs[k].op.LifeStart? || b.instrs[k].op.LifeEnd? || (b.instrs[k].to != Temp(t) && Temp(t) !in b.instrs[k].defs))
  {
    hide Writes, PhiDefs;
    BlockReadsAndWrites(b, t);
    forall k | 0 <= k < |b.instrs|
      ensures Writes(b.instrs[k], t) <==> !b.instrs[k].op.LifeStart? && !b.instrs[k].op.LifeEnd? &&
                                          (b.instrs[k].to == Temp(t) || Temp(t) in b.instrs[k].defs)
    {
      WritesIs(b.instrs[k], t);
    }
  }

  /** t is exposed in a block whose phis do not write it when an instruction that is no
      lifetime marker reads it, as argument or environment, before any writes it, or the
      terminator does and none writes it. */
  lemma ExposedIs(b: Block, t: nat)
    ensures Exposed(b, t) <==>
            ((forall j :: 0 <= j < |b.phis| ==> b.phis[j].to != Temp(t))
             && ((exists k :: 0 <= k < |b.instrs| && !b.instrs[k].op.LifeStart? && !b.instrs[k].op.LifeEnd? &&
                              (Temp(t) in b.instrs[k].args || b.instrs[k].context == Temp(t)) &&
                              forall l :: 0 <= l < k ==> b.instrs[l].op.LifeStart? || b.instrs[l].op.LifeEnd? ||
                                                         (b.instrs[l].to != Temp(t) && Temp(t) !in b.instrs[l].defs))
                 || ((b.jmpArg == Temp(t) || Temp(t) in b.jmpArgs) &&
                     forall l :: 0 <= l < |b.instrs| ==> b.instrs[l].op.LifeStart? || b.instrs[l].op.LifeEnd? ||
                                                         (b.instrs[l].to != Temp(t) && Temp(t) !in b.instrs[l].defs))))
  {
    hide Writes, UseSeq, TermUses, PhiDefs;
    BlockReadsAndWrites(b, t);
    forall k | 0 <= k < |b.instrs|
      ensures Writes(b.instrs[k], t) <==> !b.instrs[k].op.LifeStart? && !b.instrs[k].op.LifeEnd? &&
                                          (b.instrs[k].to == Temp(t) || Temp(t) in b.instrs[k].defs)
      ensures t in UseSeq(b.instrs[k]) <==> Temp(t) in b.instrs[k].args || b.instrs[k].context == Temp(t)
    {
      WritesIs(b.instrs[k], t);
      ReadsAndWrites(b.instrs[k], t);
    }
    if k: nat :| ReadFirst(b.instrs, k, t) {
      assert forall l :: 0 <= l < k ==> !Writes(b.instrs[l], t);
    }
    forall k: nat | k < |b.instrs| && !b.instrs[k].op.LifeStart? && !b.instrs[k].op.LifeEnd? &&
                    (Temp(t) in b.instrs[k].args || b.instrs[k].context == Temp(t)) &&
                    forall l :: 0 <= l < k ==> b.instrs[l].op.LifeStart? || b.instrs[l].op.LifeEnd? ||
                                               (b.instrs[l].to != Temp(t) && Temp(t) !in b.instrs[l].defs)
      ensures ReadFirst(b.instrs, k, t)
    {
    }
  }

  /** What a phi of b takes along the edge from a. */
  lemma EdgeUseIs(f: Func, a: nat, b: nat, t: nat)
    requires b < |f.blocks|
    ensures EdgeUse(f, a, b, t) <==>
            exists j, k :: 0 <= j < |f.blocks[b].phis| && 0 <= k < |f.blocks[b].phis[j].blocks| && k < |f.blocks[b].phis[j].args| &&
                           f.blocks[b].phis[j].blocks[k] == Some(a) && f.blocks[b].phis[j].args[k] == Temp(t)
  {
    forall j, k | 0 <= j < |f.blocks[b].phis| && 0 <= k < |f.blocks[b].phis[j].blocks| && k < |f.blocks[b].phis[j].args| &&
                  f.blocks[b].phis[j].blocks[k] == Some(a) && f.blocks[b].phis[j].args[k] == Temp(t)
      ensures TakesAt(f.blocks[b].phis[j], k, a, t)
    {
    }
  }

  /** The recorded sets, by paths over the terminators' successors: t is live out of a
      block exactly when a path leads from it, through blocks t passes, to a block where
      it is exposed or whose phis take it on the edge come by; and live in when it is
      exposed, or passes and is live out. */
  lemma LivenessIs(f: Func, rpo: seq<nat>, ins: seq<set<nat>>, outs: seq<set<nat>>, b: nat, t: nat)
    requires IsLiveness(f, rpo, ins, outs) && b in rpo && b < |f.blocks|
    ensures b < |outs| && b < |ins|
    ensures t in outs[b] <==>
            exists p: seq<nat> :: |p| >= 2 && p[0] == b && (forall i :: 0 <= i < |p| ==> p[i] < |f.blocks|) &&
              (forall i, j :: 0 <= i && j == i + 1 && j < |p| ==> Some(p[j]) in f.blocks[p[i]].succs || Some(p[j]) in f.blocks[p[i]].synthetic) &&
              (forall i :: 0 < i < |p| - 1 ==> Passes(f.blocks[p[i]], t)) &&
              (EdgeUse(f, p[|p| - 2], p[|p| - 1], t) || Exposed(f.blocks[p[|p| - 1]], t))
    ensures t in ins[b] <==> Exposed(f.blocks[b], t) || (Passes(f.blocks[b], t) && t in outs[b])
  {
    hide Passes, Exposed, EdgeUse;
    forall p: seq<nat> | |p| >= 2 && p[0] == b && (forall i :: 0 <= i < |p| ==> p[i] < |f.blocks|)
      ensures IsPath(G(f), p) <==>
              forall i, j :: 0 <= i && j == i + 1 && j < |p| ==> Some(p[j]) in f.blocks[p[i]].succs || Some(p[j]) in f.blocks[p[i]].synthetic
    {
      PathIs(f, p);
    }
    assert t in outs[b] <==> LiveOut(f, b, t);
  }

  lemma PathIs(f: Func, p: seq<nat>)
    requires p != [] && forall i :: 0 <= i < |p| ==> p[i] < |f.blocks|
    ensures IsPath(G(f), p) <==>
            forall i, j :: 0 <= i && j == i + 1 && j < |p| ==> Some(p[j]) in f.blocks[p[i]].succs || Some(p[j]) in f.blocks[p[i]].synthetic
  {
    hide G;
    forall i, j | 0 <= i && j == i + 1 && j < |p|
      ensures Edge(G(f), p[i], p[j]) <==> Some(p[j]) in f.blocks[p[i]].succs || Some(p[j]) in f.blocks[p[i]].synthetic
    {
      EdgesAre(f, p[i], p[j]);
    }
  }

  /** A temporary among the arguments, or the environment, of an instruction some path
      comes to without passing a write of it is live out of the path's first block. */
  lemma ReadAheadIsLive(f: Func, rpo: seq<nat>, ins: seq<set<nat>>, outs: seq<set<nat>>, p: seq<nat>, k: nat, t: nat)
    requires IsLiveness(f, rpo, ins, outs) && |p| >= 2 && p[0] in rpo && (forall i :: 0 <= i < |p| ==> p[i] < |f.blocks|)
    requires forall i, j :: 0 <= i && j == i + 1 && j < |p| ==> Some(p[j]) in f.blocks[p[i]].succs
    requires k < |f.blocks[p[|p| - 1]].instrs|
    requires !f.blocks[p[|p| - 1]].instrs[k].op.LifeStart? && !f.blocks[p[|p| - 1]].instrs[k].op.LifeEnd?
    requires Temp(t) in f.blocks[p[|p| - 1]].instrs[k].args || f.blocks[p[|p| - 1]].instrs[k].context == Temp(t)
    requires forall i, j :: 0 < i < |p| && 0 <= j < |f.blocks[p[i]].phis| ==> f.blocks[p[i]].phis[j].to != Temp(t)
    requires forall i, l :: 0 < i < |p| && 0 <= l < |f.blocks[p[i]].instrs| && (i == |p| - 1 ==> l < k) ==>
               f.blocks[p[i]].instrs[l].to != Temp(t) && Temp(t) !in f.blocks[p[i]].instrs[l].defs
    ensures t in outs[p[0]]
  {
    hide Passes, Exposed, EdgeUse, IsLiveness;
    forall i | 0 < i < |p| - 1
      ensures Passes(f.blocks[p[i]], t)
    {
      PassesIs(f.blocks[p[i]], t);
    }
    ExposedIs(f.blocks[p[|p| - 1]], t);
    LivenessIs(f, rpo, ins, outs, p[0], t);
  }
}
