/** Forward may-analysis of facts that instructions switch on and off, against paths.
    Two analyses of the arm64 back end are of this kind: which stack allocations are in
    their marked lifetime, and which have been touched since they were made. */
module BitFlow {
  import opened Graphs
  import opened Cfg
  import opened Ir

  /** What an instruction does to fact i: switch it on, off, or nothing. */
  type Event = (Instr, nat) -> Option<bool>

  function Apply(ev: Event, in_: Instr, i: nat, on: bool): bool {
    if ev(in_, i).Some? then ev(in_, i).value else on
  }

  /** Whether fact i holds after the first k instructions. */
  function OnAfter(ev: Event, ins: seq<Instr>, k: nat, i: nat, on: bool): bool
    requires k <= |ins|
  {
    if k == 0 then on else Apply(ev, ins[k - 1], i, OnAfter(ev, ins, k - 1, i, on))
  }

  /** Whether i holds on entering the last block of this path; at the start of the
      function the facts of `entry` hold. */
  ghost predicate OnEntering(ev: Event, f: Func, entry: set<nat>, p: seq<nat>, i: nat) {
    if |p| <= 1 then i in entry else OnAtEnd(ev, f, entry, p[..|p| - 1], i)
  }

  ghost predicate OnAtEnd(ev: Event, f: Func, entry: set<nat>, p: seq<nat>, i: nat)
    decreases |p|, 1
  {
    && |p| > 0 && p[|p| - 1] < |f.blocks|
    && OnAfter(ev, f.blocks[p[|p| - 1]].instrs, |f.blocks[p[|p| - 1]].instrs|, i,
               if |p| <= 1 then i in entry else OnAtEnd(ev, f, entry, p[..|p| - 1], i))
  }

  /** Whether i holds, on this path, before instruction k of its last block. */
  ghost predicate On(ev: Event, f: Func, entry: set<nat>, p: seq<nat>, k: nat, i: nat) {
    && |p| > 0 && p[|p| - 1] < |f.blocks| && k <= |f.blocks[p[|p| - 1]].instrs|
    && OnAfter(ev, f.blocks[p[|p| - 1]].instrs, k, i, OnEntering(ev, f, entry, p, i))
  }

  ghost predicate FromStart(f: Func, p: seq<nat>, b: nat) {
    f.start.Some? && IsPathFromTo(G(f), p, f.start.value, b)
  }

  ghost predicate LeavesOn(ev: Event, f: Func, entry: set<nat>, b: nat, i: nat) {
    exists p :: FromStart(f, p, b) && OnAtEnd(ev, f, entry, p, i)
  }

  /** On some path, i holds at point k of b. */
  ghost predicate MayHold(ev: Event, f: Func, entry: set<nat>, b: nat, k: nat, i: nat) {
    exists p :: FromStart(f, p, b) && On(ev, f, entry, p, k, i)
  }

  // ----- sets of facts -----

  function Step(ids: set<nat>, ev: Event, in_: Instr, live: set<nat>): (s: set<nat>)
    ensures forall i :: i in s <==> i in ids && Apply(ev, in_, i, i in live)
  {
    set i | i in ids && Apply(ev, in_, i, i in live)
  }

  function FactsAt(ids: set<nat>, ev: Event, ins: seq<Instr>, k: nat, live: set<nat>): set<nat>
    requires k <= |ins|
  {
    if k == 0 then live else Step(ids, ev, ins[k - 1], FactsAt(ids, ev, ins, k - 1, live))
  }

  lemma {:induction false} WalkIs(ids: set<nat>, ev: Event, ins: seq<Instr>, k: nat, live: set<nat>, i: nat)
    requires k <= |ins| && i in ids
    ensures i in FactsAt(ids, ev, ins, k, live) <==> OnAfter(ev, ins, k, i, i in live)
  {
    if k > 0 {
      WalkIs(ids, ev, ins, k - 1, live, i);
    }
  }

  lemma WalkWithin(ids: set<nat>, ev: Event, ins: seq<Instr>, k: nat, live: set<nat>)
    requires k <= |ins| && live <= ids
    ensures FactsAt(ids, ev, ins, k, live) <= ids
  {
  }

  lemma {:induction false} WalkGrows(ids: set<nat>, ev: Event, ins: seq<Instr>, k: nat, a: set<nat>, b: set<nat>)
    requires k <= |ins| && a <= b
    ensures FactsAt(ids, ev, ins, k, a) <= FactsAt(ids, ev, ins, k, b)
  {
    if k > 0 {
      WalkGrows(ids, ev, ins, k - 1, a, b);
    }
  }

  lemma {:induction false} OnGrows(ev: Event, ins: seq<Instr>, k: nat, i: nat, on: bool)
    requires k <= |ins| && OnAfter(ev, ins, k, i, false)
    ensures OnAfter(ev, ins, k, i, on)
  {
    if k > 0 {
      if ev(ins[k - 1], i).None? {
        OnGrows(ev, ins, k - 1, i, on);
      }
    }
  }

  /** What enters a block: what its predecessors leave, or the entry facts if it has no
      predecessor. */
  ghost function Inflow(outs: seq<set<nat>>, ps: seq<nat>, entry: set<nat>): (s: set<nat>)
    ensures forall i :: i in s <==> (ps == [] && i in entry) || exists p :: p in ps && p < |outs| && i in outs[p]
  {
    (set p, i | p in ps && p < |outs| && i in outs[p] :: i) + (if ps == [] then entry else {})
  }

  lemma InflowGrows(outs: seq<set<nat>>, more: seq<set<nat>>, ps: seq<nat>, entry: set<nat>)
    requires |outs| == |more| && forall b :: 0 <= b < |outs| ==> outs[b] <= more[b]
    ensures Inflow(outs, ps, entry) <= Inflow(more, ps, entry)
  {
    forall i | i in Inflow(outs, ps, entry)
      ensures i in Inflow(more, ps, entry)
    {
      if !(ps == [] && i in entry) {
        var p :| p in ps && p < |outs| && i in outs[p];
        assert i in more[p];
      }
    }
  }

  ghost function Leaving(f: Func, ids: set<nat>, ev: Event, entry: set<nat>, outs: seq<set<nat>>, ps: seq<nat>, b: nat): set<nat>
    requires b < |f.blocks|
  {
    FactsAt(ids, ev, f.blocks[b].instrs, |f.blocks[b].instrs|, Inflow(outs, ps, entry))
  }

  /** Recorded sets are justified by paths. */
  ghost predicate Sound(f: Func, ev: Event, entry: set<nat>, outs: seq<set<nat>>) {
    forall b, i :: 0 <= b < |outs| && i in outs[b] ==> LeavesOn(ev, f, entry, b, i)
  }

  /** Control flow with reachable predecessors; a non-empty entry set needs an entry
      block without predecessors. */
  ghost predicate Graphy(f: Func, preds: seq<seq<nat>>, rpo: seq<nat>, entry: set<nat>) {
    && WellFormedFunc(f) && IsPreds(G(f), preds) && IsRpo(G(f), f.start, rpo)
    && (forall b :: b in rpo ==> b < |f.blocks|)
    && (forall b, p :: b in rpo && b < |preds| && p in preds[b] ==> p in rpo)
    && (entry == {} || (f.start.Some? && f.start.value < |preds| ==> preds[f.start.value] == []))
  }

  lemma GraphySizes(f: Func, preds: seq<seq<nat>>, rpo: seq<nat>, entry: set<nat>, b: nat)
    requires Graphy(f, preds, rpo, entry) && b in rpo
    ensures b < |f.blocks| == |preds| && forall p :: p in preds[b] ==> p in rpo && p < |f.blocks|
  {
  }

  /** A walk from justified sets is justified. */
  lemma WalkSound(f: Func, ids: set<nat>, ev: Event, entry: set<nat>, preds: seq<seq<nat>>, rpo: seq<nat>, outs: seq<set<nat>>, b: nat, k: nat, i: nat)
    requires Graphy(f, preds, rpo, entry) && |outs| == |f.blocks| && Sound(f, ev, entry, outs) && b in rpo && i in ids
    requires k <= |f.blocks[b].instrs| && i in FactsAt(ids, ev, f.blocks[b].instrs, k, Inflow(outs, preds[b], entry))
    ensures MayHold(ev, f, entry, b, k, i)
  {
    hide FactsAt;
    WalkIs(ids, ev, f.blocks[b].instrs, k, Inflow(outs, preds[b], entry), i);
    if x :| x in preds[b] && x < |outs| && i in outs[x] {
      assert LeavesOn(ev, f, entry, x, i);
      var p :| FromStart(f, p, x) && OnAtEnd(ev, f, entry, p, i);
      assert Edge(G(f), x, b);
      PathExtend(G(f), p, f.start.value, x, b);
      assert (p + [b])[..|p|] == p;
      assert FromStart(f, p + [b], b) && On(ev, f, entry, p + [b], k, i);
    } else {
      var q :| IsPathFromTo(G(f), q, f.start.value, b);
      assert FromStart(f, q, b);
      if |q| > 1 {
        LongPathHasPred(f, preds, q, b);
      }
      if !(preds[b] == [] && i in entry) {
        OnGrows(ev, f.blocks[b].instrs, k, i, OnEntering(ev, f, entry, q, i));
      }
      assert FromStart(f, q, b) && On(ev, f, entry, q, k, i);
    }
  }

  /** A path of more than one block ends at a block with a predecessor. */
  lemma LongPathHasPred(f: Func, preds: seq<seq<nat>>, q: seq<nat>, b: nat)
    requires IsPreds(G(f), preds) && FromStart(f, q, b) && b < |f.blocks| && |q| > 1
    ensures b < |preds| && preds[b] != []
  {
    var i, j := |q| - 2, |q| - 1;
    assert Edge(G(f), q[i], q[j]);
    assert q[i] in preds[b];
  }

  lemma EndIsOn(ev: Event, f: Func, entry: set<nat>, p: seq<nat>, b: nat, i: nat)
    requires |p| > 0 && p[|p| - 1] == b && b < |f.blocks|
    ensures On(ev, f, entry, p, |f.blocks[b].instrs|, i) <==> OnAtEnd(ev, f, entry, p, i)
  {
  }

  lemma LeavingSound(f: Func, ids: set<nat>, ev: Event, entry: set<nat>, preds: seq<seq<nat>>, rpo: seq<nat>, outs: seq<set<nat>>, b: nat)
    requires Graphy(f, preds, rpo, entry) && |outs| == |f.blocks| && Sound(f, ev, entry, outs) && b in rpo
    requires entry <= ids && forall c :: 0 <= c < |outs| ==> outs[c] <= ids
    ensures b < |outs| && b < |preds|
    ensures Sound(f, ev, entry, outs[b := Leaving(f, ids, ev, entry, outs, preds[b], b)]) && Leaving(f, ids, ev, entry, outs, preds[b], b) <= ids
  {
    hide On, OnAtEnd, Graphy;
    GraphySizes(f, preds, rpo, entry, b);
    var n := |f.blocks[b].instrs|;
    WalkWithin(ids, ev, f.blocks[b].instrs, n, Inflow(outs, preds[b], entry));
    forall i | i in Leaving(f, ids, ev, entry, outs, preds[b], b)
      ensures LeavesOn(ev, f, entry, b, i)
    {
      WalkSound(f, ids, ev, entry, preds, rpo, outs, b, n, i);
      var p :| FromStart(f, p, b) && On(ev, f, entry, p, n, i);
      EndIsOn(ev, f, entry, p, b, i);
    }
  }

  ghost predicate Settled(f: Func, ids: set<nat>, ev: Event, entry: set<nat>, preds: seq<seq<nat>>, rpo: seq<nat>, outs: seq<set<nat>>) {
    |outs| == |f.blocks| == |preds| && forall c :: c in rpo && c < |outs| ==> outs[c] == Leaving(f, ids, ev, entry, outs, preds[c], c)
  }

  /** At a fixpoint every path is covered. */
  lemma {:induction false} PathsCovered(f: Func, ids: set<nat>, ev: Event, entry: set<nat>, preds: seq<seq<nat>>, rpo: seq<nat>, outs: seq<set<nat>>,
                                        p: seq<nat>, b: nat, i: nat)
    requires Graphy(f, preds, rpo, entry) && Settled(f, ids, ev, entry, preds, rpo, outs) && i in ids
    requires FromStart(f, p, b) && OnAtEnd(ev, f, entry, p, i)
    ensures b in rpo && b < |outs| && i in outs[b]
    decreases |p|, 1
  {
    hide FactsAt, IsPreds;
    assert Reach(G(f), f.start.value, b);
    GraphySizes(f, preds, rpo, entry, b);
    EndIsOn(ev, f, entry, p, b, i);
    PointCovered(f, ids, ev, entry, preds, rpo, outs, p, b, |f.blocks[b].instrs|, i);
  }

  lemma PointCovered(f: Func, ids: set<nat>, ev: Event, entry: set<nat>, preds: seq<seq<nat>>, rpo: seq<nat>, outs: seq<set<nat>>,
                     p: seq<nat>, b: nat, k: nat, i: nat)
    requires Graphy(f, preds, rpo, entry) && Settled(f, ids, ev, entry, preds, rpo, outs) && i in ids
    requires FromStart(f, p, b) && b in rpo && On(ev, f, entry, p, k, i)
    ensures b < |f.blocks| && b < |preds| && k <= |f.blocks[b].instrs|
    ensures i in FactsAt(ids, ev, f.blocks[b].instrs, k, Inflow(outs, preds[b], entry))
    decreases |p|, 0
  {
    hide FactsAt;
    GraphySizes(f, preds, rpo, entry, b);
    var inflow := Inflow(outs, preds[b], entry);
    WalkIs(ids, ev, f.blocks[b].instrs, k, inflow, i);
    if OnEntering(ev, f, entry, p, i) {
      if |p| > 1 {
        var q := p[..|p| - 1];
        var a := q[|q| - 1];
        PathPrefix(G(f), p, |p| - 2);
        assert q == p[..|p| - 2 + 1];
        assert Edge(G(f), a, b);
        PathsCovered(f, ids, ev, entry, preds, rpo, outs, q, a, i);
        assert a in preds[b];
      }
    } else {
      OnGrows(ev, f.blocks[b].instrs, k, i, i in inflow);
    }
  }

  /** At a fixpoint reached through justified sets, the walk of a block is exact. */
  lemma WalkExact(f: Func, ids: set<nat>, ev: Event, entry: set<nat>, preds: seq<seq<nat>>, rpo: seq<nat>, outs: seq<set<nat>>, b: nat, k: nat, i: nat)
    requires Graphy(f, preds, rpo, entry) && Settled(f, ids, ev, entry, preds, rpo, outs) && Sound(f, ev, entry, outs) && i in ids && b in rpo
    requires b < |f.blocks| && b < |preds| && k <= |f.blocks[b].instrs|
    ensures i in FactsAt(ids, ev, f.blocks[b].instrs, k, Inflow(outs, preds[b], entry)) <==> MayHold(ev, f, entry, b, k, i)
  {
    hide FactsAt, On, Graphy, Sound, Settled;
    SettledSizes(f, ids, ev, entry, preds, rpo, outs);
    if i in FactsAt(ids, ev, f.blocks[b].instrs, k, Inflow(outs, preds[b], entry)) {
      WalkSound(f, ids, ev, entry, preds, rpo, outs, b, k, i);
    }
    if p :| FromStart(f, p, b) && On(ev, f, entry, p, k, i) {
      PointCovered(f, ids, ev, entry, preds, rpo, outs, p, b, k, i);
    }
  }

  lemma SettledSizes(f: Func, ids: set<nat>, ev: Event, entry: set<nat>, preds: seq<seq<nat>>, rpo: seq<nat>, outs: seq<set<nat>>)
    requires Settled(f, ids, ev, entry, preds, rpo, outs)
    ensures |outs| == |f.blocks| == |preds|
  {
  }

  // ----- rounds -----

  /** Recorded sets are never more than their block would now record. */
  ghost predicate Rising(f: Func, ids: set<nat>, ev: Event, entry: set<nat>, preds: seq<seq<nat>>, outs: seq<set<nat>>, b: nat) {
    |outs| == |f.blocks| == |preds| && b < |f.blocks| && outs[b] <= Leaving(f, ids, ev, entry, outs, preds[b], b)
  }

  ghost predicate FlowInv(f: Func, ids: set<nat>, ev: Event, entry: set<nat>, preds: seq<seq<nat>>, rpo: seq<nat>, outs: seq<set<nat>>) {
    && |outs| == |f.blocks| == |preds| && entry <= ids && (forall b :: 0 <= b < |outs| ==> outs[b] <= ids)
    && Sound(f, ev, entry, outs) && forall b :: b in rpo ==> Rising(f, ids, ev, entry, preds, outs, b)
  }

  lemma FlowStart(f: Func, ids: set<nat>, ev: Event, entry: set<nat>, preds: seq<seq<nat>>, rpo: seq<nat>)
    requires Graphy(f, preds, rpo, entry) && entry <= ids
    ensures FlowInv(f, ids, ev, entry, preds, rpo, seq(|f.blocks|, _ => {}))
  {
  }

  lemma FlowSizes(f: Func, ids: set<nat>, ev: Event, entry: set<nat>, preds: seq<seq<nat>>, rpo: seq<nat>, outs: seq<set<nat>>)
    requires FlowInv(f, ids, ev, entry, preds, rpo, outs)
    ensures |outs| == |f.blocks| == |preds| && Sound(f, ev, entry, outs) && entry <= ids
    ensures forall b :: 0 <= b < |outs| ==> outs[b] <= ids
  {
  }

  lemma TurnRises(f: Func, ids: set<nat>, ev: Event, entry: set<nat>, preds: seq<seq<nat>>, outs: seq<set<nat>>, b: nat, out: set<nat>, c: nat)
    requires Rising(f, ids, ev, entry, preds, outs, b) && Rising(f, ids, ev, entry, preds, outs, c) && out == Leaving(f, ids, ev, entry, outs, preds[b], b)
    ensures Rising(f, ids, ev, entry, preds, outs[b := out], c)
  {
    hide FactsAt;
    var outs' := outs[b := out];
    InflowGrows(outs, outs', preds[b], entry);
    InflowGrows(outs, outs', preds[c], entry);
    WalkGrows(ids, ev, f.blocks[c].instrs, |f.blocks[c].instrs|, Inflow(outs, preds[c], entry), Inflow(outs', preds[c], entry));
  }

  /** Recording what a block leaves keeps the sets justified and rising. */
  lemma TurnInv(f: Func, ids: set<nat>, ev: Event, entry: set<nat>, preds: seq<seq<nat>>, rpo: seq<nat>, outs: seq<set<nat>>, b: nat, out: set<nat>)
    requires Graphy(f, preds, rpo, entry) && FlowInv(f, ids, ev, entry, preds, rpo, outs) && b in rpo && b < |f.blocks|
    requires out == Leaving(f, ids, ev, entry, outs, preds[b], b)
    ensures FlowInv(f, ids, ev, entry, preds, rpo, outs[b := out]) && outs[b] <= out <= ids
  {
    hide Graphy, Sound, Leaving;
    LeavingSound(f, ids, ev, entry, preds, rpo, outs, b);
    forall c | c in rpo
      ensures Rising(f, ids, ev, entry, preds, outs[b := out], c)
    {
      TurnRises(f, ids, ev, entry, preds, outs, b, out, c);
    }
    assert Rising(f, ids, ev, entry, preds, outs, b);
  }

  /** The union of what the predecessors leave. */
  method Gather(outs: seq<set<nat>>, ps: seq<nat>) returns (cur: set<nat>)
    requires forall p :: p in ps ==> p < |outs|
    ensures cur == Inflow(outs, ps, {})
  {
    cur := {};
    assert forall k :: 0 <= k < |ps| ==> ps[k] in ps;
    for j := 0 to |ps|
      invariant forall k :: 0 <= k < |ps| ==> ps[k] < |outs|
      invariant forall i :: i in cur <==> exists k :: 0 <= k < j && i in outs[ps[k]]
    {
      cur := cur + outs[ps[j]];
    }
    forall i | i in Inflow(outs, ps, {})
      ensures i in cur
    {
      var p :| p in ps && p < |outs| && i in outs[p];
      var k :| 0 <= k < |ps| && ps[k] == p;
      assert i in outs[ps[k]];
    }
  }

  // ----- along a trace -----

  /** The instructions run along a path up to instruction k of its last block. */
  ghost function Trace(f: Func, p: seq<nat>, k: nat): seq<Instr> {
    if |p| == 0 || p[|p| - 1] >= |f.blocks| || k > |f.blocks[p[|p| - 1]].instrs| then []
    else TraceTo(f, p[..|p| - 1]) + f.blocks[p[|p| - 1]].instrs[..k]
  }

  ghost function TraceTo(f: Func, p: seq<nat>): seq<Instr> {
    if |p| == 0 || p[|p| - 1] >= |f.blocks| then []
    else TraceTo(f, p[..|p| - 1]) + f.blocks[p[|p| - 1]].instrs
  }

  lemma {:induction false} OnConcat(ev: Event, x: seq<Instr>, y: seq<Instr>, k: nat, i: nat, on: bool)
    requires k <= |y|
    ensures OnAfter(ev, x + y, |x| + k, i, on) == OnAfter(ev, y, k, i, OnAfter(ev, x, |x|, i, on))
  {
    if k == 0 {
      OnPrefix(ev, x, y, |x|, i, on);
    } else {
      OnConcat(ev, x, y, k - 1, i, on);
      assert (x + y)[|x| + k - 1] == y[k - 1];
    }
  }

  lemma {:induction false} OnPrefix(ev: Event, x: seq<Instr>, y: seq<Instr>, k: nat, i: nat, on: bool)
    requires k <= |x|
    ensures OnAfter(ev, x + y, k, i, on) == OnAfter(ev, x, k, i, on)
  {
    if k > 0 {
      OnPrefix(ev, x, y, k - 1, i, on);
    }
  }

  ghost predicate InRange(f: Func, p: seq<nat>) {
    forall j :: 0 <= j < |p| ==> p[j] < |f.blocks|
  }

  /** The state on a path is the fold of its trace. */
  lemma {:induction false} TraceState(ev: Event, f: Func, entry: set<nat>, p: seq<nat>, i: nat)
    requires |p| > 0 && InRange(f, p)
    ensures OnAtEnd(ev, f, entry, p, i) <==> OnAfter(ev, TraceTo(f, p), |TraceTo(f, p)|, i, i in entry)
    decreases |p|
  {
    var q, ins := p[..|p| - 1], f.blocks[p[|p| - 1]].instrs;
    OnConcat(ev, TraceTo(f, q), ins, |ins|, i, i in entry);
    if |p| > 1 {
      TraceState(ev, f, entry, q, i);
    } else {
      assert q == [];
    }
  }

  lemma PointState(ev: Event, f: Func, entry: set<nat>, p: seq<nat>, k: nat, i: nat)
    requires |p| > 0 && InRange(f, p) && k <= |f.blocks[p[|p| - 1]].instrs|
    ensures On(ev, f, entry, p, k, i) <==> OnAfter(ev, Trace(f, p, k), |Trace(f, p, k)|, i, i in entry)
  {
    var q, ins := p[..|p| - 1], f.blocks[p[|p| - 1]].instrs;
    OnConcat(ev, TraceTo(f, q), ins[..k], k, i, i in entry);
    OnPrefix(ev, ins[..k], ins[k..], k, i, OnAfter(ev, TraceTo(f, q), |TraceTo(f, q)|, i, i in entry));
    assert ins[..k] + ins[k..] == ins;
    if |p| > 1 {
      TraceState(ev, f, entry, q, i);
    } else {
      assert q == [];
    }
  }

  lemma PathInRange(f: Func, p: seq<nat>, b: nat)
    requires WellFormedFunc(f) && FromStart(f, p, b)
    ensures InRange(f, p) && |p| > 0 && p[|p| - 1] == b
  {
    FullWellFormed(Exec(f), Synthetic(f));
    forall j | 0 <= j < |p|
      ensures p[j] < |f.blocks|
    {
      PathPrefix(G(f), p, j);
      assert Reach(G(f), f.start.value, p[j]);
      ReachInRange(G(f), f.start.value, p[j]);
    }
  }

  /** The trace of a path is its blocks' instructions, the last block's up to k. */
  lemma TraceIs(f: Func, p: seq<nat>, b: nat, k: nat)
    requires b < |f.blocks| && k <= |f.blocks[b].instrs|
    ensures Trace(f, [b], k) == f.blocks[b].instrs[..k]
    ensures p != [] && p[|p| - 1] < |f.blocks| ==>
              Trace(f, p + [b], k) == Trace(f, p, |f.blocks[p[|p| - 1]].instrs|) + f.blocks[b].instrs[..k]
  {
    assert [b][..0] == [] && (p + [b])[..|p|] == p;
    if p != [] && p[|p| - 1] < |f.blocks| {
      var ins := f.blocks[p[|p| - 1]].instrs;
      assert ins[..|ins|] == ins;
    }
  }

  /** A fact off at first is on after a trace when some step switches it on and none
      later switches it off. */
  lemma {:induction false} OnMeans(ev: Event, trace: seq<Instr>, n: nat, i: nat)
    requires n <= |trace|
    ensures OnAfter(ev, trace, n, i, false) <==>
            exists j :: 0 <= j < n && ev(trace[j], i) == Some(true) && forall l :: j < l < n ==> ev(trace[l], i) != Some(false)
  {
    if n > 0 {
      OnMeans(ev, trace, n - 1, i);
    }
  }
}
