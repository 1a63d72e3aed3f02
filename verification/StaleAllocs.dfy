/** Which stack allocations still hold what an earlier incarnation left, at each
    safepoint (undefinedAllocationsAtSafepoints in arm64/regalloc.go). */
module StaleAllocs {
  import opened Graphs
  import opened Cfg
  import opened Ir
  import opened BitFlow
  import opened Derivations

  /** The instruction makes the allocation anew. */
  predicate Makes(in_: Instr, a: nat) {
    in_.op.Alloc? && in_.to == Temp(a)
  }

  /** The instruction touches allocation a: it uses an address derived from a for other
      than deriving a further address, or is a call whose stack result lands in a. */
  ghost predicate Touches(f: Func, fa: Facts, in_: Instr, a: nat) {
    || (DerivationBases(fa, in_) == [] && !in_.op.IsLifetime() && exists t :: t in UseSeq(in_) && Derived(f, fa, a, t))
    || (in_.op.Call? && fa.stackResult(in_).Some? && Derived(f, fa, a, fa.stackResult(in_).value))
  }

  predicate TouchesBy(fa: Facts, src: map<nat, set<nat>>, in_: Instr, a: nat) {
    || (DerivationBases(fa, in_) == [] && !in_.op.IsLifetime() && exists t :: t in UseSeq(in_) && a in Sets(src, t))
    || (in_.op.Call? && fa.stackResult(in_).Some? && a in Sets(src, fa.stackResult(in_).value))
  }

  lemma TouchesExact(f: Func, fa: Facts, src: map<nat, set<nat>>, in_: Instr, a: nat)
    requires SourcesExact(f, fa, src) && Tracked(f, fa, a)
    ensures TouchesBy(fa, src, in_, a) <==> Touches(f, fa, in_, a)
  {
    hide Derived, Tracked, UseSeq, DerivationBases;
    forall t: nat
      ensures a in Sets(src, t) <==> Derived(f, fa, a, t)
    {
    }
  }

  /** Making an allocation undefines it, touching it defines it. */
  function TouchEvent(fa: Facts, src: map<nat, set<nat>>): Event {
    (in_: Instr, a: nat) => if Makes(in_, a) then Some(false) else if TouchesBy(fa, src, in_, a) then Some(true) else None
  }

  // ----- what the state means on a path -----

  /** a was made at step j and has not been touched since. */
  ghost predicate FreshSince(f: Func, fa: Facts, trace: seq<Instr>, j: nat, a: nat) {
    && j < |trace| && Makes(trace[j], a)
    && forall l :: j < l < |trace| && Touches(f, fa, trace[l], a) ==> Makes(trace[l], a)
  }

  ghost predicate Stale(f: Func, fa: Facts, trace: seq<Instr>, a: nat) {
    exists j :: FreshSince(f, fa, trace, j, a)
  }

  /** Off means: made at some step, and not touched since. */
  lemma {:induction false} OffMeansStale(f: Func, fa: Facts, src: map<nat, set<nat>>, trace: seq<Instr>, a: nat)
    requires SourcesExact(f, fa, src) && Tracked(f, fa, a)
    ensures !OnAfter(TouchEvent(fa, src), trace, |trace|, a, true) <==> Stale(f, fa, trace, a)
  {
    if trace != [] {
      var n := |trace| - 1;
      var init, last := trace[..n], trace[n];
      assert trace == init + [last];
      OnPrefix(TouchEvent(fa, src), init, [last], n, a, true);
      OffMeansStale(f, fa, src, init, a);
      TouchesExact(f, fa, src, last, a);
      StaleStep(f, fa, init, last, a);
    }
  }

  lemma StaleStep(f: Func, fa: Facts, init: seq<Instr>, last: Instr, a: nat)
    ensures Stale(f, fa, init + [last], a) <==> Makes(last, a) || (!Touches(f, fa, last, a) && Stale(f, fa, init, a))
  {
    hide Touches, Makes;
    var trace := init + [last];
    if j: nat :| FreshSince(f, fa, trace, j, a) {
      if j < |init| && !Makes(last, a) {
        assert trace[|init|] == last;
        assert forall l :: j < l < |init| ==> trace[l] == init[l];
        assert FreshSince(f, fa, init, j, a);
      }
    }
    if Makes(last, a) {
      assert FreshSince(f, fa, trace, |init|, a);
    }
    if !Touches(f, fa, last, a) {
      if j: nat :| FreshSince(f, fa, init, j, a) {
        assert FreshSince(f, fa, trace, j, a);
      }
    }
  }

  // ----- on the fields -----

  /** An instruction touches a when it reads an address derived from it and is no
      lifetime marker, copy, constant addition or select, or when it is a call whose
      stack result lands there. */
  lemma TouchesAre(f: Func, fa: Facts, in_: Instr, a: nat)
    ensures Touches(f, fa, in_, a) <==>
            ((exists t :: (Temp(t) in in_.args || in_.context == Temp(t)) && Derived(f, fa, a, t) &&
                          !in_.op.LifeStart? && !in_.op.LifeEnd? &&
                          !(in_.op.Copy? && |in_.args| == 1 && in_.args[0].Temp?) &&
                          !(in_.op.Add? && |in_.args| == 2 && in_.args[0].Temp? && in_.args[1].Other? && in_.args[1].code in fa.intConsts) &&
                          !(in_.op.Sel? && |in_.args| == 3))
             || (in_.op.Call? && fa.stackResult(in_).Some? && Derived(f, fa, a, fa.stackResult(in_).value)))
  {
    hide Derived;
    DerivesIs(fa, in_);
    forall t
      ensures t in UseSeq(in_) <==> Temp(t) in in_.args || in_.context == Temp(t)
    {
      ReadsAndWrites(in_, t);
    }
  }

  /** Read after it was last made, other than to derive an address, a is not stale. */
  lemma ReadIsNotStale(f: Func, fa: Facts, trace: seq<Instr>, j: nat, t: nat, a: nat)
    requires j < |trace| && (Temp(t) in trace[j].args || trace[j].context == Temp(t)) && Derived(f, fa, a, t)
    requires !trace[j].op.LifeStart? && !trace[j].op.LifeEnd?
    requires !(trace[j].op.Copy? && |trace[j].args| == 1 && trace[j].args[0].Temp?)
    requires !(trace[j].op.Add? && |trace[j].args| == 2 && trace[j].args[0].Temp? && trace[j].args[1].Other? && trace[j].args[1].code in fa.intConsts)
    requires !(trace[j].op.Sel? && |trace[j].args| == 3)
    requires forall l :: j <= l < |trace| ==> !(trace[l].op.Alloc? && trace[l].to == Temp(a))
    ensures !Stale(f, fa, trace, a)
  {
    hide Derived, Touches;
    TouchesAre(f, fa, trace[j], a);
    assert !Makes(trace[j], a);
  }

  /** Made, and since then only derived from, marked or left alone, a is stale. */
  lemma UnreadIsStale(f: Func, fa: Facts, trace: seq<Instr>, j: nat, a: nat)
    requires j < |trace| && trace[j].op.Alloc? && trace[j].to == Temp(a)
    requires forall l :: j < l < |trace| ==> (trace[l].op.LifeStart? || trace[l].op.LifeEnd? || (trace[l].op.Copy? && |trace[l].args| == 1 && trace[l].args[0].Temp?)
               || (trace[l].op.Add? && |trace[l].args| == 2 && trace[l].args[0].Temp? && trace[l].args[1].Other? && trace[l].args[1].code in fa.intConsts)
               || (trace[l].op.Sel? && |trace[l].args| == 3)
               || ((forall t :: Temp(t) in trace[l].args || trace[l].context == Temp(t) ==> !Derived(f, fa, a, t))
                   && (trace[l].op.Call? && fa.stackResult(trace[l]).Some? ==> !Derived(f, fa, a, fa.stackResult(trace[l]).value))))
    ensures Stale(f, fa, trace, a)
  {
    hide Derived, Touches;
    forall l | j < l < |trace|
      ensures !Touches(f, fa, trace[l], a)
    {
      TouchesAre(f, fa, trace[l], a);
    }
    assert FreshSince(f, fa, trace, j, a);
  }

  /** An allocation whose address some path reads, after making it last and before the
      safepoint, other than to derive an address, is not suppressed there. */
  lemma ReadIsScanned(f: Func, fa: Facts, ids: set<nat>, b: nat, m: map<nat, set<nat>>, k: nat, p: seq<nat>, j: nat, t: nat, a: nat)
    requires RecordOk(f, fa, ids, b, m) && k in m && a in ids && FromStart(f, p, b)
    requires var trace := Trace(f, p, k);
             && j < |trace| && (Temp(t) in trace[j].args || trace[j].context == Temp(t)) && Derived(f, fa, a, t)
             && !trace[j].op.LifeStart? && !trace[j].op.LifeEnd?
             && !(trace[j].op.Copy? && |trace[j].args| == 1 && trace[j].args[0].Temp?)
             && !(trace[j].op.Add? && |trace[j].args| == 2 && trace[j].args[0].Temp? && trace[j].args[1].Other? && trace[j].args[1].code in fa.intConsts)
             && !(trace[j].op.Sel? && |trace[j].args| == 3)
             && forall l :: j <= l < |trace| ==> !(trace[l].op.Alloc? && trace[l].to == Temp(a))
    ensures a !in m[k]
  {
    hide Derived, Stale, Trace;
    ReadIsNotStale(f, fa, Trace(f, p, k), j, t, a);
    assert SuppressedExactly(f, fa, ids, b, k, m[k]);
  }

  // ----- the dataflow -----

  /** What a block visited so far has recorded. */
  ghost predicate Visited(f: Func, ids: set<nat>, ev: Event, preds: seq<seq<nat>>, ins: seq<Option<set<nat>>>, outs: seq<set<nat>>, b: nat) {
    && b < |ins| == |outs| && b < |f.blocks| && b < |preds|
    && (ins[b].Some? ==> ins[b].value <= Inflow(outs, preds[b], ids))
    && (ins[b].Some? ==> outs[b] == FactsAt(ids, ev, f.blocks[b].instrs, |f.blocks[b].instrs|, ins[b].value))
  }

  ghost predicate StateInv(f: Func, ids: set<nat>, ev: Event, preds: seq<seq<nat>>, rpo: seq<nat>, ins: seq<Option<set<nat>>>, outs: seq<set<nat>>) {
    && FlowInv(f, ids, ev, ids, preds, rpo, outs) && |ins| == |f.blocks|
    && (forall b :: b in rpo ==> Visited(f, ids, ev, preds, ins, outs, b))
  }

  /** Unvisited blocks and unrecorded facts: what the rounds use up. */
  ghost function Unrecorded(ids: set<nat>, ins: seq<Option<set<nat>>>): set<(nat, Option<nat>)> {
    (set b, i | b in Upto(|ins|) && i in ids && (ins[b].None? || i !in ins[b].value) :: (b, Some(i)))
    + (set b | b in Upto(|ins|) && ins[b].None? :: (b, None))
  }

  lemma RecordedMore(ids: set<nat>, ins: seq<Option<set<nat>>>, b: nat, state: set<nat>)
    requires b < |ins| && ins[b] != Some(state) && state <= ids && (ins[b].Some? ==> ins[b].value <= state)
    ensures Unrecorded(ids, ins[b := Some(state)]) < Unrecorded(ids, ins)
  {
    var less := ins[b := Some(state)];
    if ins[b].None? {
      assert (b, None) in Unrecorded(ids, ins) && (b, None) !in Unrecorded(ids, less);
    } else {
      assert ins[b].value != state && !(state <= ins[b].value);
      var i :| i in state && i !in ins[b].value;
      assert (b, Some(i)) in Unrecorded(ids, ins) && (b, Some(i)) !in Unrecorded(ids, less);
    }
  }

  lemma VisitKeeps(f: Func, ids: set<nat>, ev: Event, preds: seq<seq<nat>>, rpo: seq<nat>, ins: seq<Option<set<nat>>>, outs: seq<set<nat>>, b: nat,
                   state: set<nat>, out: set<nat>)
    requires Graphy(f, preds, rpo, ids) && StateInv(f, ids, ev, preds, rpo, ins, outs) && b in rpo && b < |f.blocks| && b < |preds|
    requires state == Inflow(outs, preds[b], ids) && out == Leaving(f, ids, ev, ids, outs, preds[b], b)
    ensures StateInv(f, ids, ev, preds, rpo, ins[b := Some(state)], outs[b := out])
    ensures ins[b].Some? ==> ins[b].value <= state
  {
    hide Graphy, FlowInv, Inflow, FactsAt;
    FlowSizes(f, ids, ev, ids, preds, rpo, outs);
    TurnInv(f, ids, ev, ids, preds, rpo, outs, b, out);
    var ins', outs' := ins[b := Some(state)], outs[b := out];
    assert Visited(f, ids, ev, preds, ins, outs, b);
    forall c | c in rpo
      ensures Visited(f, ids, ev, preds, ins', outs', c)
    {
      assert Visited(f, ids, ev, preds, ins, outs, c);
      InflowGrows(outs, outs', preds[c], ids);
    }
  }

  /** The state after a block, or the stale allocations before instruction k. */
  method Transfer(ids: set<nat>, fa: Facts, src: map<nat, set<nat>>, ins: seq<Instr>, state: set<nat>) returns (cur: set<nat>, record: map<nat, set<nat>>)
    requires state <= ids
    ensures cur == FactsAt(ids, TouchEvent(fa, src), ins, |ins|, state)
    ensures forall k :: k in record <==> 0 <= k < |ins| && (ins[k].op.Call? || ins[k].op.Safepoint?)
    ensures forall k :: k in record ==> record[k] == ids - FactsAt(ids, TouchEvent(fa, src), ins, k, state)
  {
    hide TouchesBy;
    cur, record := state, map[];
    for k := 0 to |ins|
      invariant cur == FactsAt(ids, TouchEvent(fa, src), ins, k, state) && cur <= ids
      invariant forall j :: j in record <==> 0 <= j < k && (ins[j].op.Call? || ins[j].op.Safepoint?)
      invariant forall j :: j in record ==> record[j] == ids - FactsAt(ids, TouchEvent(fa, src), ins, j, state)
    {
      var in_ := ins[k];
      if in_.op.Call? || in_.op.Safepoint? {
        record := record[k := ids - cur];
      }
      cur := cur + set a | a in ids && TouchesBy(fa, src, in_, a);
      if in_.op.Alloc? && in_.to.Temp? {
        cur := cur - {in_.to.id};
      }
      assert cur == Step(ids, TouchEvent(fa, src), in_, FactsAt(ids, TouchEvent(fa, src), ins, k, state));
    }
  }

  method EntryState(ids: set<nat>, outs: seq<set<nat>>, ps: seq<nat>) returns (state: set<nat>)
    requires forall p :: p in ps ==> p < |outs|
    ensures state == Inflow(outs, ps, ids)
  {
    state := Gather(outs, ps);
    if |ps| == 0 {
      state := state + ids;
    }
  }

  /** The entry state of b is what enters it now. */
  ghost predicate Current(f: Func, ids: set<nat>, preds: seq<seq<nat>>, ins: seq<Option<set<nat>>>, outs: seq<set<nat>>, b: nat) {
    b < |f.blocks| && b < |ins| && b < |preds| && ins[b] == Some(Inflow(outs, preds[b], ids))
  }

  /** One block; skipped when its entry state is unchanged. */
  method Turn(f: Func, ids: set<nat>, fa: Facts, src: map<nat, set<nat>>, preds: seq<seq<nat>>, ghost rpo: seq<nat>, b: nat,
              ins0: seq<Option<set<nat>>>, outs0: seq<set<nat>>)
    returns (ins: seq<Option<set<nat>>>, outs: seq<set<nat>>, changed: bool)
    requires Graphy(f, preds, rpo, ids) && StateInv(f, ids, TouchEvent(fa, src), preds, rpo, ins0, outs0) && b in rpo
    ensures StateInv(f, ids, TouchEvent(fa, src), preds, rpo, ins, outs)
    ensures changed ==> Unrecorded(ids, ins) < Unrecorded(ids, ins0)
    ensures !changed ==> ins == ins0 && outs == outs0 && Current(f, ids, preds, ins, outs, b)
  {
    hide Graphy, StateInv, Inflow, Leaving, Unrecorded, TouchEvent;
    ins, outs, changed := ins0, outs0, false;
    ghost var ev := TouchEvent(fa, src);
    GraphySizes(f, preds, rpo, ids, b);
    StateSizes(f, ids, ev, preds, rpo, ins, outs);
    var state := EntryState(ids, outs, preds[b]);
    InflowWithin(ids, outs, preds[b]);
    if ins[b] != Some(state) {
      var out, _ := Transfer(ids, fa, src, f.blocks[b].instrs, state);
      LeavingIs(f, ids, ev, outs, preds[b], b);
      VisitKeeps(f, ids, ev, preds, rpo, ins, outs, b, state, out);
      RecordedMore(ids, ins, b, state);
      ins, outs, changed := ins[b := Some(state)], outs[b := out], true;
    }
  }

  method Round(f: Func, ids: set<nat>, fa: Facts, src: map<nat, set<nat>>, preds: seq<seq<nat>>, rpo: seq<nat>,
               ins0: seq<Option<set<nat>>>, outs0: seq<set<nat>>)
    returns (ins: seq<Option<set<nat>>>, outs: seq<set<nat>>, changed: bool)
    requires Graphy(f, preds, rpo, ids) && StateInv(f, ids, TouchEvent(fa, src), preds, rpo, ins0, outs0)
    ensures StateInv(f, ids, TouchEvent(fa, src), preds, rpo, ins, outs)
    ensures changed ==> Unrecorded(ids, ins) < Unrecorded(ids, ins0)
    ensures !changed ==> ins == ins0 && forall i :: 0 <= i < |rpo| ==> Current(f, ids, preds, ins, outs, rpo[i])
  {
    hide Graphy, StateInv, Current, Unrecorded, TouchEvent;
    ins, outs, changed := ins0, outs0, false;
    for i := 0 to |rpo|
      invariant StateInv(f, ids, TouchEvent(fa, src), preds, rpo, ins, outs)
      invariant changed ==> Unrecorded(ids, ins) < Unrecorded(ids, ins0)
      invariant !changed ==> ins == ins0 && forall j :: 0 <= j < i ==> Current(f, ids, preds, ins, outs, rpo[j])
    {
      var grew;
      ins, outs, grew := Turn(f, ids, fa, src, preds, rpo, rpo[i], ins, outs);
      changed := changed || grew;
    }
  }

  lemma LeavingIs(f: Func, ids: set<nat>, ev: Event, outs: seq<set<nat>>, ps: seq<nat>, b: nat)
    requires b < |f.blocks|
    ensures Leaving(f, ids, ev, ids, outs, ps, b) == FactsAt(ids, ev, f.blocks[b].instrs, |f.blocks[b].instrs|, Inflow(outs, ps, ids))
  {
  }

  lemma InflowWithin(ids: set<nat>, outs: seq<set<nat>>, ps: seq<nat>)
    requires forall b :: 0 <= b < |outs| ==> outs[b] <= ids
    ensures Inflow(outs, ps, ids) <= ids
  {
  }

  lemma StateSizes(f: Func, ids: set<nat>, ev: Event, preds: seq<seq<nat>>, rpo: seq<nat>, ins: seq<Option<set<nat>>>, outs: seq<set<nat>>)
    requires StateInv(f, ids, ev, preds, rpo, ins, outs)
    ensures |ins| == |outs| == |f.blocks| == |preds| && Sound(f, ev, ids, outs) && forall b :: 0 <= b < |outs| ==> outs[b] <= ids
  {
  }

  /** What is suppressed at a safepoint: an allocation that, on every path there, was
      made and has not been touched since. */
  ghost predicate SuppressedExactly(f: Func, fa: Facts, ids: set<nat>, b: nat, k: nat, stale: set<nat>) {
    && stale <= ids
    && forall a :: a in ids ==> (a in stale <==> forall p :: FromStart(f, p, b) ==> Stale(f, fa, Trace(f, p, k), a))
  }

  lemma ExactAtPoint(f: Func, fa: Facts, src: map<nat, set<nat>>, ids: set<nat>, b: nat, k: nat, a: nat)
    requires SourcesExact(f, fa, src) && WellFormedFunc(f) && a in ids && Tracked(f, fa, a) && b < |f.blocks| && k <= |f.blocks[b].instrs|
    ensures MayHold(TouchEvent(fa, src), f, ids, b, k, a) <==> exists p :: FromStart(f, p, b) && !Stale(f, fa, Trace(f, p, k), a)
  {
    hide Stale, SourcesExact, On, Trace;
    forall p | FromStart(f, p, b)
      ensures On(TouchEvent(fa, src), f, ids, p, k, a) <==> !Stale(f, fa, Trace(f, p, k), a)
    {
      PathInRange(f, p, b);
      PointState(TouchEvent(fa, src), f, ids, p, k, a);
      OffMeansStale(f, fa, src, Trace(f, p, k), a);
    }
  }

  /** Rounds until no entry state changes. */
  method Settle(f: Func, ids: set<nat>, fa: Facts, src: map<nat, set<nat>>, preds: seq<seq<nat>>, rpo: seq<nat>)
    returns (ins: seq<Option<set<nat>>>, outs: seq<set<nat>>)
    requires Graphy(f, preds, rpo, ids)
    ensures StateInv(f, ids, TouchEvent(fa, src), preds, rpo, ins, outs)
    ensures forall i :: 0 <= i < |rpo| ==> Current(f, ids, preds, ins, outs, rpo[i])
  {
    hide Graphy, StateInv, Current, Unrecorded, TouchEvent;
    ins := seq(|f.blocks|, _ => None);
    outs := seq(|f.blocks|, _ => {});
    StateStart(f, ids, TouchEvent(fa, src), preds, rpo);
    var changed := true;
    while changed
      invariant StateInv(f, ids, TouchEvent(fa, src), preds, rpo, ins, outs)
      invariant !changed ==> forall i :: 0 <= i < |rpo| ==> Current(f, ids, preds, ins, outs, rpo[i])
      decreases Unrecorded(ids, ins), changed
    {
      ins, outs, changed := Round(f, ids, fa, src, preds, rpo, ins, outs);
    }
  }

  /** Per safepoint of each reachable block, the allocations not to scan. */
  method UndefinedAllocations(f: Func, fa: Facts, preds: seq<seq<nat>>, rpo: seq<nat>) returns (ids: set<nat>, undefined: seq<map<nat, set<nat>>>)
    requires Graphy(f, preds, rpo, fa.pointerAllocs)
    ensures forall a :: (a in ids <==> a in fa.pointerAllocs && a !in fa.escaping && exists b, k :: AllocatesAt(f, b, k, a))
    ensures |undefined| == |rpo| && forall x :: 0 <= x < |rpo| ==> rpo[x] < |f.blocks| && RecordOk(f, fa, ids, rpo[x], undefined[x])
    ensures (forall x :: 0 <= x < |rpo| ==>
               forall k :: (k in undefined[x] <==> 0 <= k < |f.blocks[rpo[x]].instrs| && (f.blocks[rpo[x]].instrs[k].op.Call? || f.blocks[rpo[x]].instrs[k].op.Safepoint?)))
  {
    hide Graphy, StateInv, SourcesExact, Tracked, RecordOk, Current, AllocatesAt;
    var src := PointerAllocationSources(f, fa);
    ids := TrackedSet(f, fa);
    TrackedIs(f, fa);
    GraphyLess(f, preds, rpo, fa.pointerAllocs, ids);
    var ins, outs := Settle(f, ids, fa, src, preds, rpo);
    undefined := [];
    for i := 0 to |rpo|
      invariant |undefined| == i && forall x :: 0 <= x < i ==> RecordOk(f, fa, ids, rpo[x], undefined[x])
    {
      var b := rpo[i];
      CurrentWithin(f, ids, TouchEvent(fa, src), preds, rpo, ins, outs, b);
      var _, record := Transfer(ids, fa, src, f.blocks[b].instrs, ins[b].value);
      BlockRecorded(f, fa, src, ids, preds, rpo, ins, outs, b, record);
      undefined := undefined + [record];
    }
    KeysAre(f, fa, ids, rpo, undefined);
  }

  /** Instruction k of block b makes allocation a. */
  ghost predicate AllocatesAt(f: Func, b: nat, k: nat, a: nat) {
    b < |f.blocks| && k < |f.blocks[b].instrs| && f.blocks[b].instrs[k].op.Alloc? && f.blocks[b].instrs[k].to == Temp(a)
  }

  lemma TrackedIs(f: Func, fa: Facts)
    ensures forall a :: Tracked(f, fa, a) <==> a in fa.pointerAllocs && exists b, k :: AllocatesAt(f, b, k, a)
  {
    forall a | a in fa.pointerAllocs
      ensures Tracked(f, fa, a) <==> exists b, k :: AllocatesAt(f, b, k, a)
    {
      if b: nat, k: nat :| AllocatesAt(f, b, k, a) {
        assert BlockAllocates(f.blocks[b], a);
      }
      if b: nat :| b < |f.blocks| && BlockAllocates(f.blocks[b], a) {
        var k :| 0 <= k < |f.blocks[b].instrs| && f.blocks[b].instrs[k].op.Alloc? && f.blocks[b].instrs[k].to == Temp(a);
        assert AllocatesAt(f, b, k, a);
      }
    }
  }

  lemma KeysAre(f: Func, fa: Facts, ids: set<nat>, rpo: seq<nat>, undefined: seq<map<nat, set<nat>>>)
    requires |undefined| == |rpo| && forall x :: 0 <= x < |rpo| ==> RecordOk(f, fa, ids, rpo[x], undefined[x])
    ensures forall x :: 0 <= x < |rpo| ==> rpo[x] < |f.blocks|
    ensures (forall x :: 0 <= x < |rpo| ==>
               forall k :: (k in undefined[x] <==> 0 <= k < |f.blocks[rpo[x]].instrs| && (f.blocks[rpo[x]].instrs[k].op.Call? || f.blocks[rpo[x]].instrs[k].op.Safepoint?)))
  {
  }

  /** A block's safepoints and what each suppresses. */
  ghost predicate RecordOk(f: Func, fa: Facts, ids: set<nat>, b: nat, m: map<nat, set<nat>>) {
    && b < |f.blocks| && SafepointKeys(f.blocks[b].instrs, m)
    && forall k :: k in m ==> SuppressedExactly(f, fa, ids, b, k, m[k])
  }

  lemma CurrentWithin(f: Func, ids: set<nat>, ev: Event, preds: seq<seq<nat>>, rpo: seq<nat>, ins: seq<Option<set<nat>>>, outs: seq<set<nat>>, b: nat)
    requires StateInv(f, ids, ev, preds, rpo, ins, outs) && Current(f, ids, preds, ins, outs, b)
    ensures b < |f.blocks| && b < |ins| && b < |preds| && ins[b].Some? && ins[b].value <= ids && ins[b].value == Inflow(outs, preds[b], ids)
  {
    StateSizes(f, ids, ev, preds, rpo, ins, outs);
    InflowWithin(ids, outs, preds[b]);
  }

  lemma BlockRecorded(f: Func, fa: Facts, src: map<nat, set<nat>>, ids: set<nat>, preds: seq<seq<nat>>, rpo: seq<nat>,
                      ins: seq<Option<set<nat>>>, outs: seq<set<nat>>, b: nat, record: map<nat, set<nat>>)
    requires Graphy(f, preds, rpo, ids) && StateInv(f, ids, TouchEvent(fa, src), preds, rpo, ins, outs) && SourcesExact(f, fa, src) && b in rpo
    requires (forall a :: a in ids ==> Tracked(f, fa, a)) && forall i :: 0 <= i < |rpo| ==> Current(f, ids, preds, ins, outs, rpo[i])
    requires b < |f.blocks| && b < |preds| && SafepointKeys(f.blocks[b].instrs, record)
    requires forall k :: k in record ==> k <= |f.blocks[b].instrs|
    requires forall k :: k in record ==> record[k] == ids - FactsAt(ids, TouchEvent(fa, src), f.blocks[b].instrs, k, Inflow(outs, preds[b], ids))
    ensures RecordOk(f, fa, ids, b, record)
  {
    hide Graphy, StateInv, SourcesExact, Tracked, SuppressedExactly, Current, FactsAt, Inflow;
    forall k | k in record
      ensures SuppressedExactly(f, fa, ids, b, k, record[k])
    {
      RecordExact(f, fa, src, ids, preds, rpo, ins, outs, b, k, record[k]);
    }
  }

  ghost predicate SafepointKeys(ins: seq<Instr>, m: map<nat, set<nat>>) {
    forall k :: k in m <==> 0 <= k < |ins| && (ins[k].op.Call? || ins[k].op.Safepoint?)
  }

  lemma RecordExact(f: Func, fa: Facts, src: map<nat, set<nat>>, ids: set<nat>, preds: seq<seq<nat>>, rpo: seq<nat>,
                    ins: seq<Option<set<nat>>>, outs: seq<set<nat>>, b: nat, k: nat, stale: set<nat>)
    requires Graphy(f, preds, rpo, ids) && StateInv(f, ids, TouchEvent(fa, src), preds, rpo, ins, outs) && SourcesExact(f, fa, src)
    requires b in rpo && b < |f.blocks| && b < |preds| && k <= |f.blocks[b].instrs|
    requires forall a :: a in ids ==> Tracked(f, fa, a)
    requires forall i :: 0 <= i < |rpo| ==> Current(f, ids, preds, ins, outs, rpo[i])
    requires stale == ids - FactsAt(ids, TouchEvent(fa, src), f.blocks[b].instrs, k, Inflow(outs, preds[b], ids))
    ensures SuppressedExactly(f, fa, ids, b, k, stale)
  {
    hide Graphy, StateInv, SourcesExact, Tracked, Stale, FactsAt, Inflow, MayHold, Trace;
    AllSettled(f, ids, TouchEvent(fa, src), preds, rpo, ins, outs);
    StateSizes(f, ids, TouchEvent(fa, src), preds, rpo, ins, outs);
    GraphyFunc(f, preds, rpo, ids);
    forall a | a in ids
      ensures a in stale <==> forall p :: FromStart(f, p, b) ==> Stale(f, fa, Trace(f, p, k), a)
    {
      WalkExact(f, ids, TouchEvent(fa, src), ids, preds, rpo, outs, b, k, a);
      ExactAtPoint(f, fa, src, ids, b, k, a);
    }
  }

  lemma GraphyFunc(f: Func, preds: seq<seq<nat>>, rpo: seq<nat>, entry: set<nat>)
    requires Graphy(f, preds, rpo, entry)
    ensures WellFormedFunc(f)
  {
  }

  lemma GraphyLess(f: Func, preds: seq<seq<nat>>, rpo: seq<nat>, entry: set<nat>, less: set<nat>)
    requires Graphy(f, preds, rpo, entry) && less <= entry
    ensures Graphy(f, preds, rpo, less)
  {
  }

  lemma AllSettled(f: Func, ids: set<nat>, ev: Event, preds: seq<seq<nat>>, rpo: seq<nat>, ins: seq<Option<set<nat>>>, outs: seq<set<nat>>)
    requires StateInv(f, ids, ev, preds, rpo, ins, outs)
    requires forall i :: 0 <= i < |rpo| ==> Current(f, ids, preds, ins, outs, rpo[i])
    ensures Settled(f, ids, ev, ids, preds, rpo, outs)
  {
    hide FlowInv, Inflow, FactsAt;
    FlowSizes(f, ids, ev, ids, preds, rpo, outs);
    forall c | c in rpo && c < |outs|
      ensures outs[c] == Leaving(f, ids, ev, ids, outs, preds[c], c)
    {
      var j :| 0 <= j < |rpo| && rpo[j] == c;
      assert Visited(f, ids, ev, preds, ins, outs, c) && Current(f, ids, preds, ins, outs, rpo[j]);
    }
  }

  lemma StateStart(f: Func, ids: set<nat>, ev: Event, preds: seq<seq<nat>>, rpo: seq<nat>)
    requires Graphy(f, preds, rpo, ids)
    ensures StateInv(f, ids, ev, preds, rpo, seq(|f.blocks|, _ => None), seq(|f.blocks|, _ => {}))
  {
    FlowStart(f, ids, ev, ids, preds, rpo);
  }

  method TrackedSet(f: Func, fa: Facts) returns (ids: set<nat>)
    ensures forall a :: a in ids <==> Tracked(f, fa, a) && a !in fa.escaping
    ensures ids <= fa.pointerAllocs
  {
    ids := {};
    for b := 0 to |f.blocks|
      invariant forall a :: a in ids <==> (a in fa.pointerAllocs && a !in fa.escaping && exists i :: 0 <= i < b && BlockAllocates(f.blocks[i], a))
    {
      var found := TrackedIn(f.blocks[b], fa);
      ids := ids + found;
    }
  }

  method TrackedIn(b: Block, fa: Facts) returns (ids: set<nat>)
    ensures forall a :: a in ids <==> (a in fa.pointerAllocs && a !in fa.escaping && BlockAllocates(b, a))
  {
    ids := {};
    for k := 0 to |b.instrs|
      invariant forall a :: a in ids <==> (a in fa.pointerAllocs && a !in fa.escaping && exists i :: 0 <= i < k && b.instrs[i].op.Alloc? && b.instrs[i].to == Temp(a))
    {
      var in_ := b.instrs[k];
      if in_.op.Alloc? && in_.to.Temp? && in_.to.id in fa.pointerAllocs && in_.to.id !in fa.escaping {
        ids := ids + {in_.to.id};
      }
    }
  }
}
