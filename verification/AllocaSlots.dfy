/** Sharing stack slots between allocations whose marked lifetimes never overlap
    (arm64/allocacolor.go). */
module AllocaSlots {
  import opened Graphs
  import opened Sorting
  import opened Cfg
  import opened Ir
  import opened BitFlow

  // ----- lifetimes along paths -----

  /** An operand's number: a temporary's, or a constant's in its own table. */
  function NumberOf(r: Ref): nat {
    if r.Temp? then r.id else r.code
  }

  /** The number a lifetime marker carries. The dataflow looks it up without asking what
      kind of operand carries it. */
  function MarkOf(in_: Instr): Option<nat> {
    if in_.op.IsLifetime() && |in_.args| > 0 then Some(NumberOf(in_.args[0])) else None
  }

  /** The allocation a lifetime marker really names. */
  function TrueMark(in_: Instr): Option<nat> {
    if in_.op.IsLifetime() && |in_.args| > 0 && in_.args[0].Temp? then Some(in_.args[0].id) else None
  }

  /** As the dataflow sees it, a start switches a number on, an end switches it off. */
  function LifeEvent(in_: Instr, i: nat): Option<bool> {
    if MarkOf(in_) == Some(i) then Some(in_.op.LifeStart?) else None
  }

  function TrueEvent(in_: Instr, i: nat): Option<bool> {
    if TrueMark(in_) == Some(i) then Some(in_.op.LifeStart?) else None
  }

  /** By number, i is on, on this path, before instruction k of its last block. */
  ghost predicate LiveAt(f: Func, p: seq<nat>, k: nat, i: nat) {
    On(LifeEvent, f, {}, p, k, i)
  }

  /** i is in its lifetime there: started and not ended since. */
  ghost predicate TrulyLive(f: Func, p: seq<nat>, k: nat, i: nat) {
    On(TrueEvent, f, {}, p, k, i)
  }

  /** An allocation is in its lifetime on a path when a start marker names its temporary
      and no end marker has named it since. */
  lemma InLifetimeIs(f: Func, p: seq<nat>, k: nat, i: nat)
    requires |p| > 0 && InRange(f, p) && k <= |f.blocks[p[|p| - 1]].instrs|
    ensures var trace := Trace(f, p, k);
            TrulyLive(f, p, k, i) <==>
            exists j :: 0 <= j < |trace| && trace[j].op.LifeStart? && |trace[j].args| > 0 && trace[j].args[0] == Temp(i) &&
                        forall l :: j < l < |trace| ==> !(trace[l].op.LifeEnd? && |trace[l].args| > 0 && trace[l].args[0] == Temp(i))
  {
    hide Trace;
    var trace := Trace(f, p, k);
    PointState(TrueEvent, f, {}, p, k, i);
    OnMeans(TrueEvent, trace, |trace|, i);
    forall in_: Instr
      ensures TrueEvent(in_, i) == Some(true) <==> in_.op.LifeStart? && |in_.args| > 0 && in_.args[0] == Temp(i)
      ensures TrueEvent(in_, i) == Some(false) <==> in_.op.LifeEnd? && |in_.args| > 0 && in_.args[0] == Temp(i)
    {
    }
  }

  /** To the dataflow it is so when a start marker carries its number, on whatever
      operand, and no end marker has since. */
  lemma ByNumberIs(f: Func, p: seq<nat>, k: nat, i: nat)
    requires |p| > 0 && InRange(f, p) && k <= |f.blocks[p[|p| - 1]].instrs|
    ensures var trace := Trace(f, p, k);
            LiveAt(f, p, k, i) <==>
            exists j :: 0 <= j < |trace| && trace[j].op.LifeStart? && |trace[j].args| > 0 && (trace[j].args[0] == Temp(i) || trace[j].args[0] == Other(i)) &&
                        forall l :: j < l < |trace| ==>
                          !(trace[l].op.LifeEnd? && |trace[l].args| > 0 && (trace[l].args[0] == Temp(i) || trace[l].args[0] == Other(i)))
  {
    hide Trace;
    var trace := Trace(f, p, k);
    PointState(LifeEvent, f, {}, p, k, i);
    OnMeans(LifeEvent, trace, |trace|, i);
    forall in_: Instr
      ensures LifeEvent(in_, i) == Some(true) <==> in_.op.LifeStart? && |in_.args| > 0 && (in_.args[0] == Temp(i) || in_.args[0] == Other(i))
      ensures LifeEvent(in_, i) == Some(false) <==> in_.op.LifeEnd? && |in_.args| > 0 && (in_.args[0] == Temp(i) || in_.args[0] == Other(i))
    {
    }
  }

  // ----- markers on operands that are not temporaries -----

  /** An end marker whose operand is not a temporary but carries i's number. */
  predicate StrayEnd(in_: Instr, i: nat) {
    in_.op.LifeEnd? && MarkOf(in_) == Some(i) && TrueMark(in_) != Some(i)
  }

  lemma StrayEndIs(in_: Instr, i: nat)
    ensures StrayEnd(in_, i) <==> in_.op.LifeEnd? && |in_.args| > 0 && in_.args[0] == Other(i)
  {
  }

  ghost predicate HitAt(f: Func, p: seq<nat>, b: nat, k: nat, i: nat) {
    && FromStart(f, p, b) && b < |f.blocks| && k < |f.blocks[b].instrs|
    && TrulyLive(f, p, k, i) && StrayEnd(f.blocks[b].instrs[k], i)
  }

  /** Some path meets such a marker inside i's lifetime. */
  ghost predicate StrayEndHits(f: Func, i: nat) {
    exists p, b, k :: HitAt(f, p, b, k, i)
  }

  /** The dataflow has i on wherever it is in its lifetime. */
  ghost predicate Covered(f: Func, i: nat) {
    forall p, b, k :: FromStart(f, p, b) && TrulyLive(f, p, k, i) ==> LiveAt(f, p, k, i)
  }

  /** After instruction k - 1: where a lifetime is covered before it and no stray end
      hits, it is covered after it. */
  lemma CoveredStep(in_: Instr, i: nat, truly: bool, found: bool)
    requires truly ==> found && !StrayEnd(in_, i)
    ensures Apply(TrueEvent, in_, i, truly) ==> Apply(LifeEvent, in_, i, found)
  {
  }

  lemma {:induction false} CoveredAt(f: Func, p: seq<nat>, b: nat, k: nat, i: nat)
    requires FromStart(f, p, b) && TrulyLive(f, p, k, i) && !StrayEndHits(f, i)
    ensures LiveAt(f, p, k, i)
    decreases |p|, k
  {
    if k > 0 {
      var in_ := f.blocks[b].instrs[k - 1];
      if TrulyLive(f, p, k - 1, i) {
        CoveredAt(f, p, b, k - 1, i);
        assert !HitAt(f, p, b, k - 1, i);
      }
      CoveredStep(in_, i, TrulyLive(f, p, k - 1, i), LiveAt(f, p, k - 1, i));
    } else if |p| > 1 {
      var q := p[..|p| - 1];
      var a := q[|q| - 1];
      PathPrefix(G(f), p, |p| - 2);
      assert q == p[..|p| - 2 + 1];
      EndIsOn(TrueEvent, f, {}, q, a, i);
      EndIsOn(LifeEvent, f, {}, q, a, i);
      CoveredAt(f, q, a, |f.blocks[a].instrs|, i);
    }
  }

  /** The dataflow covers an allocation's lifetime on every path exactly when no path
      meets, inside it, an end marker on something else that carries its number. */
  lemma CoveredExactly(f: Func, i: nat)
    ensures Covered(f, i) <==> !StrayEndHits(f, i)
  {
    hide TrulyLive, LiveAt;
    if !StrayEndHits(f, i) {
      forall p, b, k: nat | FromStart(f, p, b) && TrulyLive(f, p, k, i)
        ensures LiveAt(f, p, k, i)
      {
        CoveredAt(f, p, b, k, i);
      }
    }
    if p, b: nat, k: nat :| HitAt(f, p, b, k, i) {
      HitUncovers(f, p, b, k, i);
    }
  }

  lemma HitUncovers(f: Func, p: seq<nat>, b: nat, k: nat, i: nat)
    requires HitAt(f, p, b, k, i)
    ensures TrulyLive(f, p, k + 1, i) && !LiveAt(f, p, k + 1, i)
  {
  }

  /** Some path has i live at some point of b. */
  ghost predicate LiveIn(f: Func, b: nat, i: nat) {
    exists k :: MayHold(LifeEvent, f, {}, b, k, i)
  }

  // ----- the dataflow -----

  function Toggle(ids: set<nat>, in_: Instr, live: set<nat>): set<nat> {
    if MarkOf(in_).Some? && MarkOf(in_).value in ids then
      if in_.op.LifeStart? then live + {MarkOf(in_).value} else live - {MarkOf(in_).value}
    else live
  }

  lemma ToggleIsStep(ids: set<nat>, in_: Instr, live: set<nat>)
    requires live <= ids
    ensures Toggle(ids, in_, live) == Step(ids, LifeEvent, in_, live)
  {
  }

  ghost predicate Somewhere(ids: set<nat>, ins: seq<Instr>, start: set<nat>, i: nat) {
    exists k :: 0 <= k <= |ins| && i in FactsAt(ids, LifeEvent, ins, k, start)
  }

  /** One block: what it leaves live, and what is live anywhere in it. */
  method WalkBlock(ids: set<nat>, ins: seq<Instr>, start: set<nat>) returns (out: set<nat>, any: set<nat>)
    requires start <= ids
    ensures out == FactsAt(ids, LifeEvent, ins, |ins|, start)
    ensures forall i :: i in any <==> Somewhere(ids, ins, start, i)
  {
    out, any := start, start;
    for k := 0 to |ins|
      invariant out == FactsAt(ids, LifeEvent, ins, k, start) && out <= ids
      invariant forall i :: i in any <==> exists j :: 0 <= j <= k && i in FactsAt(ids, LifeEvent, ins, j, start)
    {
      ToggleIsStep(ids, ins[k], out);
      out := Toggle(ids, ins[k], out);
      any := any + out;
      assert out == FactsAt(ids, LifeEvent, ins, k + 1, start);
    }
  }

  ghost predicate AnyIs(f: Func, ids: set<nat>, preds: seq<seq<nat>>, outs: seq<set<nat>>, b: nat, any: set<nat>) {
    && b < |f.blocks| && b < |preds|
    && forall i :: i in any <==> Somewhere(ids, f.blocks[b].instrs, Inflow(outs, preds[b], {}), i)
  }

  /** One round over the blocks in order. */
  method Round(f: Func, ids: set<nat>, preds: seq<seq<nat>>, rpo: seq<nat>, outs0: seq<set<nat>>)
    returns (outs: seq<set<nat>>, any: seq<set<nat>>, changed: bool)
    requires Graphy(f, preds, rpo, {}) && FlowInv(f, ids, LifeEvent, {}, preds, rpo, outs0)
    ensures FlowInv(f, ids, LifeEvent, {}, preds, rpo, outs) && |any| == |rpo|
    ensures changed ==> Missing(ids, outs) < Missing(ids, outs0)
    ensures !changed ==> outs == outs0 && |preds| == |f.blocks| == |outs|
    ensures !changed ==> forall i :: 0 <= i < |rpo| ==> SettledAt(f, ids, preds, outs, rpo[i], any[i])
  {
    hide Graphy, FlowInv, AnyIs, Leaving, FactsAt, Somewhere, Inflow, Missing;
    outs, any, changed := outs0, [], false;
    FlowSizes(f, ids, LifeEvent, {}, preds, rpo, outs);
    for i := 0 to |rpo|
      invariant FlowInv(f, ids, LifeEvent, {}, preds, rpo, outs) && |any| == i && |outs| == |f.blocks|
      invariant changed ==> Missing(ids, outs) < Missing(ids, outs0)
      invariant !changed ==> outs == outs0 && forall j :: 0 <= j < i ==> SettledAt(f, ids, preds, outs, rpo[j], any[j])
    {
      var b := rpo[i];
      GraphySizes(f, preds, rpo, {}, b);
      FlowSizes(f, ids, LifeEvent, {}, preds, rpo, outs);
      var cur := Gather(outs, preds[b]);
      CurWithin(ids, outs, preds[b]);
      var out, bl := WalkBlock(ids, f.blocks[b].instrs, cur);
      BlockDone(f, ids, preds, outs, b, out, bl);
      TurnInv(f, ids, LifeEvent, {}, preds, rpo, outs, b, out);
      if out != outs[b] {
        changed := true;
        MissingShrinks(ids, outs, b, out);
      } else {
        assert outs[b := out] == outs;
      }
      outs := outs[b := out];
      any := any + [bl];
    }
  }

  lemma CurWithin(ids: set<nat>, outs: seq<set<nat>>, ps: seq<nat>)
    requires forall b :: 0 <= b < |outs| ==> outs[b] <= ids
    ensures Inflow(outs, ps, {}) <= ids
  {
  }

  lemma BlockDone(f: Func, ids: set<nat>, preds: seq<seq<nat>>, outs: seq<set<nat>>, b: nat, out: set<nat>, any: set<nat>)
    requires b < |f.blocks| && b < |preds|
    requires out == FactsAt(ids, LifeEvent, f.blocks[b].instrs, |f.blocks[b].instrs|, Inflow(outs, preds[b], {}))
    requires forall i :: i in any <==> Somewhere(ids, f.blocks[b].instrs, Inflow(outs, preds[b], {}), i)
    ensures AnyIs(f, ids, preds, outs, b, any) && out == Leaving(f, ids, LifeEvent, {}, outs, preds[b], b)
  {
    hide FactsAt, Inflow;
  }

  ghost predicate SettledAt(f: Func, ids: set<nat>, preds: seq<seq<nat>>, outs: seq<set<nat>>, b: nat, any: set<nat>) {
    && b < |f.blocks| && b < |preds| && b < |outs|
    && outs[b] == Leaving(f, ids, LifeEvent, {}, outs, preds[b], b) && AnyIs(f, ids, preds, outs, b, any)
  }

  /** What is live anywhere in each reachable block: exactly what some path has live
      there. */
  method BlockLive(f: Func, ids: set<nat>, preds: seq<seq<nat>>, rpo: seq<nat>) returns (any: seq<set<nat>>)
    requires Graphy(f, preds, rpo, {})
    ensures |any| == |rpo| && forall k, i :: 0 <= k < |rpo| && i in ids ==> (i in any[k] <==> LiveIn(f, rpo[k], i))
  {
    hide Graphy, FlowInv, SettledAt, LiveIn;
    var outs: seq<set<nat>> := seq(|f.blocks|, _ => {});
    any := [];
    FlowStart(f, ids, LifeEvent, {}, preds, rpo);
    var changed := true;
    while changed
      invariant FlowInv(f, ids, LifeEvent, {}, preds, rpo, outs)
      invariant !changed ==> |any| == |rpo| && |preds| == |f.blocks| == |outs|
      invariant !changed ==> forall i :: 0 <= i < |rpo| ==> SettledAt(f, ids, preds, outs, rpo[i], any[i])
      decreases Missing(ids, outs), changed
    {
      outs, any, changed := Round(f, ids, preds, rpo, outs);
    }
    AllSettled(f, ids, preds, rpo, outs, any);
    forall k, i | 0 <= k < |rpo| && i in ids
      ensures i in any[k] <==> LiveIn(f, rpo[k], i)
    {
      AnyExact(f, ids, preds, rpo, outs, any[k], rpo[k], i);
    }
  }

  lemma AllSettled(f: Func, ids: set<nat>, preds: seq<seq<nat>>, rpo: seq<nat>, outs: seq<set<nat>>, any: seq<set<nat>>)
    requires |any| == |rpo| && |preds| == |f.blocks| == |outs|
    requires forall i :: 0 <= i < |rpo| ==> SettledAt(f, ids, preds, outs, rpo[i], any[i])
    ensures Settled(f, ids, LifeEvent, {}, preds, rpo, outs)
  {
    hide Leaving, AnyIs;
    forall c | c in rpo && c < |outs|
      ensures outs[c] == Leaving(f, ids, LifeEvent, {}, outs, preds[c], c)
    {
      var j :| 0 <= j < |rpo| && rpo[j] == c;
      assert SettledAt(f, ids, preds, outs, rpo[j], any[j]);
    }
  }

  lemma AnyExact(f: Func, ids: set<nat>, preds: seq<seq<nat>>, rpo: seq<nat>, outs: seq<set<nat>>, any: set<nat>, b: nat, i: nat)
    requires Graphy(f, preds, rpo, {}) && FlowInv(f, ids, LifeEvent, {}, preds, rpo, outs) && Settled(f, ids, LifeEvent, {}, preds, rpo, outs)
    requires b in rpo && i in ids && SettledAt(f, ids, preds, outs, b, any)
    ensures i in any <==> LiveIn(f, b, i)
  {
    hide FactsAt, Leaving, Graphy, Inflow, Settled, FlowInv;
    FlowSizes(f, ids, LifeEvent, {}, preds, rpo, outs);
    var ins := f.blocks[b].instrs;
    forall k: nat
      ensures k <= |ins| ==> (i in FactsAt(ids, LifeEvent, ins, k, Inflow(outs, preds[b], {})) <==> MayHold(LifeEvent, f, {}, b, k, i))
      ensures MayHold(LifeEvent, f, {}, b, k, i) ==> k <= |ins|
    {
      if k <= |ins| {
        WalkExact(f, ids, LifeEvent, {}, preds, rpo, outs, b, k, i);
      }
    }
  }

  // ----- interference and grouping -----

  /** Live somewhere in one block. */
  ghost predicate Together(f: Func, rpo: seq<nat>, i: nat, j: nat) {
    exists k :: 0 <= k < |rpo| && LiveIn(f, rpo[k], i) && LiveIn(f, rpo[k], j)
  }

  method Interference(f: Func, rpo: seq<nat>, ids: seq<nat>, any: seq<set<nat>>) returns (clash: set<(nat, nat)>)
    requires |any| == |rpo| && forall k, i :: 0 <= k < |rpo| && i in ids ==> (i in any[k] <==> LiveIn(f, rpo[k], i))
    ensures forall i, j :: i in ids && j in ids && i != j ==> ((i, j) in clash <==> Together(f, rpo, i, j))
    ensures forall i, j :: (i, j) in clash ==> (j, i) in clash
  {
    hide LiveIn;
    clash := {};
    for k := 0 to |rpo|
      invariant forall i, j :: (i, j) in clash ==> (j, i) in clash
      invariant forall i, j :: i in ids && j in ids && i != j ==> ((i, j) in clash <==> exists l :: 0 <= l < k && i in any[l] && j in any[l])
    {
      var pairs := set i, j | i in ids && j in ids && i != j && i in any[k] && j in any[k] :: (i, j);
      clash := clash + pairs;
    }
  }

  datatype Group = Group(align: nat, size: nat, members: seq<nat>)

  /** Members have the group's shape and no two clash. */
  ghost predicate GroupOk(shape: map<nat, (nat, nat)>, clash: set<(nat, nat)>, g: Group) {
    && g.members != [] && Distinct(g.members)
    && (forall i :: i in g.members ==> i in shape && shape[i] == (g.align, g.size))
    && (forall i, j :: i in g.members && j in g.members && i != j ==> (i, j) !in clash)
  }

  /** A group's slot is free for i: same shape, no clash with its members. */
  predicate Fits(g: Group, shape: (nat, nat), clash: set<(nat, nat)>, i: nat) {
    shape == (g.align, g.size) && forall m :: m in g.members ==> (i, m) !in clash
  }

  ghost predicate GroupsOk(shape: map<nat, (nat, nat)>, clash: set<(nat, nat)>, done: seq<nat>, gs: seq<Group>, groupOf: map<nat, nat>) {
    && (forall g :: 0 <= g < |gs| ==> GroupOk(shape, clash, gs[g]))
    && (forall i :: i in groupOf <==> i in done)
    && (forall i :: i in groupOf ==> groupOf[i] < |gs| && i in gs[groupOf[i]].members)
    && (forall g, i :: 0 <= g < |gs| && i in gs[g].members ==> i in groupOf && groupOf[i] == g)
  }

  /** The later group could not have been opened in vain: its first member does not fit
      the earlier one. */
  ghost predicate Needed(clash: set<(nat, nat)>, g: Group, h: Group) {
    && h.members != []
    && ((g.align, g.size) != (h.align, h.size) || exists m :: m in g.members && (h.members[0], m) in clash)
  }

  ghost predicate NoneWasted(clash: set<(nat, nat)>, gs: seq<Group>) {
    forall g, h :: 0 <= g < h < |gs| ==> Needed(clash, gs[g], gs[h])
  }

  method FirstFit(gs: seq<Group>, shape: (nat, nat), clash: set<(nat, nat)>, i: nat) returns (r: Option<nat>)
    ensures r.Some? ==> r.value < |gs| && Fits(gs[r.value], shape, clash, i) && forall g :: 0 <= g < r.value ==> !Fits(gs[g], shape, clash, i)
    ensures r.None? ==> forall g :: 0 <= g < |gs| ==> !Fits(gs[g], shape, clash, i)
  {
    for g := 0 to |gs|
      invariant forall h :: 0 <= h < g ==> !Fits(gs[h], shape, clash, i)
    {
      if Fits(gs[g], shape, clash, i) {
        return Some(g);
      }
    }
    r := None;
  }

  lemma JoinKeeps(shape: map<nat, (nat, nat)>, clash: set<(nat, nat)>, g: Group, i: nat)
    requires GroupOk(shape, clash, g) && i in shape && Fits(g, shape[i], clash, i) && i !in g.members
    requires forall x, y :: (x, y) in clash ==> (y, x) in clash
    ensures GroupOk(shape, clash, g.(members := g.members + [i]))
  {
  }

  /** Greedy grouping, in the order given, each into the first group that fits. */
  method Assign(order: seq<nat>, shape: map<nat, (nat, nat)>, clash: set<(nat, nat)>) returns (gs: seq<Group>, groupOf: map<nat, nat>)
    requires Distinct(order) && (forall i :: i in order ==> i in shape) && forall x, y :: (x, y) in clash ==> (y, x) in clash
    ensures GroupsOk(shape, clash, order, gs, groupOf) && NoneWasted(clash, gs)
  {
    hide Fits, GroupOk, GroupsOk, NoneWasted;
    gs, groupOf := [], map[];
    NoGroups(shape, clash);
    for k := 0 to |order|
      invariant GroupsOk(shape, clash, order[..k], gs, groupOf) && NoneWasted(clash, gs)
    {
      var i := order[k];
      assert i in order && i !in order[..k];
      assert order[..k + 1] == order[..k] + [i];
      var r := FirstFit(gs, shape[i], clash, i);
      if r.Some? {
        JoinGroups(shape, clash, order[..k], gs, groupOf, i, r.value);
        JoinWastesNone(shape, clash, order[..k], gs, groupOf, i, r.value);
        gs := gs[r.value := gs[r.value].(members := gs[r.value].members + [i])];
        groupOf := groupOf[i := r.value];
      } else {
        AddGroup(shape, clash, order[..k], gs, groupOf, i);
        AddWastesNone(shape[i], clash, gs, i);
        groupOf := groupOf[i := |gs|];
        gs := gs + [Group(shape[i].0, shape[i].1, [i])];
      }
    }
    assert order[..|order|] == order;
  }

  lemma NoGroups(shape: map<nat, (nat, nat)>, clash: set<(nat, nat)>)
    ensures GroupsOk(shape, clash, [], [], map[]) && NoneWasted(clash, [])
  {
  }

  lemma JoinWastesNone(shape: map<nat, (nat, nat)>, clash: set<(nat, nat)>, done: seq<nat>, gs: seq<Group>, groupOf: map<nat, nat>, i: nat, r: nat)
    requires GroupsOk(shape, clash, done, gs, groupOf) && NoneWasted(clash, gs) && r < |gs|
    ensures NoneWasted(clash, gs[r := gs[r].(members := gs[r].members + [i])])
  {
    hide Fits;
    var hs := gs[r := gs[r].(members := gs[r].members + [i])];
    forall g, h | 0 <= g < h < |hs|
      ensures Needed(clash, hs[g], hs[h])
    {
      assert Needed(clash, gs[g], gs[h]) && GroupOk(shape, clash, gs[h]);
    }
  }

  lemma AddWastesNone(shape: (nat, nat), clash: set<(nat, nat)>, gs: seq<Group>, i: nat)
    requires NoneWasted(clash, gs) && forall g :: 0 <= g < |gs| ==> !Fits(gs[g], shape, clash, i)
    ensures NoneWasted(clash, gs + [Group(shape.0, shape.1, [i])])
  {
    var hs := gs + [Group(shape.0, shape.1, [i])];
    forall g, h | 0 <= g < h < |hs|
      ensures Needed(clash, hs[g], hs[h])
    {
      assert h < |gs| ==> Needed(clash, gs[g], gs[h]);
      assert !Fits(gs[g], shape, clash, i);
    }
  }

  lemma JoinGroups(shape: map<nat, (nat, nat)>, clash: set<(nat, nat)>, done: seq<nat>, gs: seq<Group>, groupOf: map<nat, nat>, i: nat, r: nat)
    requires GroupsOk(shape, clash, done, gs, groupOf) && i !in done && i in shape && r < |gs| && Fits(gs[r], shape[i], clash, i)
    requires forall x, y :: (x, y) in clash ==> (y, x) in clash
    ensures GroupsOk(shape, clash, done + [i], gs[r := gs[r].(members := gs[r].members + [i])], groupOf[i := r])
  {
    hide GroupOk, Fits;
    assert i !in gs[r].members;
    JoinKeeps(shape, clash, gs[r], i);
  }

  lemma AddGroup(shape: map<nat, (nat, nat)>, clash: set<(nat, nat)>, done: seq<nat>, gs: seq<Group>, groupOf: map<nat, nat>, i: nat)
    requires GroupsOk(shape, clash, done, gs, groupOf) && i !in done && i in shape
    ensures GroupsOk(shape, clash, done + [i], gs + [Group(shape[i].0, shape[i].1, [i])], groupOf[i := |gs|])
  {
    hide GroupOk;
    NewGroup(shape, clash, i);
  }

  lemma NewGroup(shape: map<nat, (nat, nat)>, clash: set<(nat, nat)>, i: nat)
    requires i in shape
    ensures GroupOk(shape, clash, Group(shape[i].0, shape[i].1, [i]))
  {
  }

  // ----- the whole pass -----

  type Pos = (nat, nat)

  ghost predicate IsAllocAt(f: Func, x: Pos) {
    x.0 < |f.blocks| && x.1 < |f.blocks[x.0].instrs| && f.blocks[x.0].instrs[x.1].op.Alloc?
  }

  function RoundUp(n: nat, a: nat): nat {
    if a == 0 then n else (n + a - 1) / a * a
  }

  lemma RoundUp4(n: nat)
    ensures n <= RoundUp(n, 4) < n + 4 && RoundUp(n, 4) % 4 == 0
  {
  }

  lemma RoundUp8(n: nat)
    ensures n <= RoundUp(n, 8) < n + 8 && RoundUp(n, 8) % 8 == 0
  {
  }

  lemma RoundUp16(n: nat)
    ensures n <= RoundUp(n, 16) < n + 16 && RoundUp(n, 16) % 16 == 0
  {
  }

  lemma RoundUpIs(n: nat, a: nat)
    requires a == 4 || a == 8 || a == 16
    ensures n <= RoundUp(n, a) < n + a && RoundUp(n, a) % a == 0
  {
    hide RoundUp;
    if a == 4 {
      RoundUp4(n);
    } else if a == 8 {
      RoundUp8(n);
    } else {
      RoundUp16(n);
    }
  }

  /** An allocation's alignment, and its size rounded up to it. */
  function Shape(op: Op): (s: (nat, nat))
    requires op.Alloc?
    ensures s.0 == 4 || s.0 == 8 || s.0 == 16
    ensures s.1 % s.0 == 0 && s.1 > 0 && s.1 >= op.size
  {
    var align := if op.align == 4 then 4 else if op.align == 8 then 8 else 16;
    var size := if op.size > 0 then op.size else align;
    RoundUpIs(size, align);
    (align, RoundUp(size, align))
  }

  /** An allocation is aligned to 4, 8 or 16 as it asks, to 16 if it asks for anything
      else, and takes the least multiple of that holding its size; without a size, one
      unit. */
  lemma ShapeIs(op: Op)
    requires op.Alloc?
    ensures Shape(op).0 == (if op.align == 4 then 4 else if op.align == 8 then 8 else 16)
    ensures Shape(op).1 % Shape(op).0 == 0
    ensures op.size > 0 ==> op.size <= Shape(op).1 < op.size + Shape(op).0
    ensures op.size == 0 ==> Shape(op).1 == Shape(op).0
  {
    var align := if op.align == 4 then 4 else if op.align == 8 then 8 else 16;
    var size := if op.size > 0 then op.size else align;
    RoundUpIs(size, align);
    if op.size == 0 {
      OneUnit(align);
    }
  }

  lemma OneUnit(a: nat)
    requires a == 4 || a == 8 || a == 16
    ensures RoundUp(a, a) == a
  {
    RoundUpIs(a, a);
  }

  function ShapeAt(f: Func, x: Pos): (nat, nat)
    requires IsAllocAt(f, x)
  {
    Shape(f.blocks[x.0].instrs[x.1].op)
  }

  /** i's allocation is at x. */
  ghost predicate AllocatedAt(f: Func, i: nat, x: Pos) {
    IsAllocAt(f, x) && f.blocks[x.0].instrs[x.1].to == Temp(i)
  }

  ghost predicate AllocsIn(b: Block, i: nat) {
    exists k :: 0 <= k < |b.instrs| && b.instrs[k].op.Alloc? && b.instrs[k].to == Temp(i)
  }

  ghost predicate MarksIn(b: Block, i: nat, start: bool) {
    exists k :: 0 <= k < |b.instrs| && TrueMark(b.instrs[k]) == Some(i) && b.instrs[k].op.LifeStart? == start
  }

  /** i is a stack allocation; i is started (or ended) somewhere. */
  ghost predicate HasAlloc(f: Func, i: nat) {
    exists b :: 0 <= b < |f.blocks| && AllocsIn(f.blocks[b], i)
  }

  ghost predicate HasMark(f: Func, i: nat, start: bool) {
    exists b :: 0 <= b < |f.blocks| && MarksIn(f.blocks[b], i, start)
  }

  method CollectBlock(f: Func, b: nat, at0: map<nat, Pos>) returns (at: map<nat, Pos>, starts: set<nat>, ends: set<nat>)
    requires b < |f.blocks| && forall i :: i in at0 ==> AllocatedAt(f, i, at0[i])
    ensures forall i :: i in at ==> AllocatedAt(f, i, at[i])
    ensures forall i: nat :: i in at <==> i in at0 || AllocsIn(f.blocks[b], i)
    ensures forall i: nat :: i in starts <==> MarksIn(f.blocks[b], i, true)
    ensures forall i: nat :: i in ends <==> MarksIn(f.blocks[b], i, false)
  {
    at, starts, ends := at0, {}, {};
    var ins := f.blocks[b].instrs;
    for k := 0 to |ins|
      invariant forall i :: i in at ==> AllocatedAt(f, i, at[i])
      invariant forall i: nat :: i in at <==> (i in at0 || exists j :: 0 <= j < k && ins[j].op.Alloc? && ins[j].to == Temp(i))
      invariant forall i: nat :: i in starts <==> exists j :: 0 <= j < k && TrueMark(ins[j]) == Some(i) && ins[j].op.LifeStart?
      invariant forall i: nat :: i in ends <==> exists j :: 0 <= j < k && TrueMark(ins[j]) == Some(i) && !ins[j].op.LifeStart?
    {
      var in_ := ins[k];
      if in_.op.Alloc? && in_.to.Temp? {
        at := at[in_.to.id := (b, k)];
      }
      if TrueMark(in_).Some? {
        if in_.op.LifeStart? {
          starts := starts + {TrueMark(in_).value};
        } else {
          ends := ends + {TrueMark(in_).value};
        }
      }
    }
  }

  /** Where each allocation is, and which ones are started and ended somewhere. */
  method Collect(f: Func) returns (at: map<nat, Pos>, starts: set<nat>, ends: set<nat>)
    ensures forall i :: i in at ==> AllocatedAt(f, i, at[i])
    ensures forall i: nat :: i in at <==> HasAlloc(f, i)
    ensures forall i: nat :: i in starts <==> HasMark(f, i, true)
    ensures forall i: nat :: i in ends <==> HasMark(f, i, false)
  {
    hide AllocsIn, MarksIn, AllocatedAt;
    at, starts, ends := map[], {}, {};
    for b := 0 to |f.blocks|
      invariant forall i :: i in at ==> AllocatedAt(f, i, at[i])
      invariant forall i: nat :: i in at <==> exists c :: 0 <= c < b && AllocsIn(f.blocks[c], i)
      invariant forall i: nat :: i in starts <==> exists c :: 0 <= c < b && MarksIn(f.blocks[c], i, true)
      invariant forall i: nat :: i in ends <==> exists c :: 0 <= c < b && MarksIn(f.blocks[c], i, false)
    {
      var begun, ended;
      at, begun, ended := CollectBlock(f, b, at);
      starts, ends := starts + begun, ends + ended;
    }
  }

  function Size(shape: map<nat, (nat, nat)>, i: nat): nat {
    if i in shape then shape[i].1 else 0
  }

  /** Larger first, ties by temporary number. */
  predicate Before(shape: map<nat, (nat, nat)>, i: nat, j: nat) {
    Size(shape, i) > Size(shape, j) || (Size(shape, i) == Size(shape, j) && i < j)
  }

  ghost predicate Sorted(shape: map<nat, (nat, nat)>, order: seq<nat>) {
    forall a, b :: 0 <= a < b < |order| ==> Before(shape, order[a], order[b])
  }

  method SortBySize(shape: map<nat, (nat, nat)>, ids: set<nat>) returns (order: seq<nat>)
    requires forall i :: i in ids ==> i in shape
    ensures Sorted(shape, order) && Distinct(order) && forall i :: i in order <==> i in ids
    ensures forall a, b :: 0 <= a < b < |order| ==>
              (order[a] in shape && order[b] in shape &&
               (shape[order[a]].1 > shape[order[b]].1 || (shape[order[a]].1 == shape[order[b]].1 && order[a] < order[b])))
  {
    var less := (i: nat, j: nat) => Before(shape, i, j);
    order := [];
    var rest := ids;
    while rest != {}
      invariant rest <= ids && InOrder(less, order) && Distinct(order) && forall i :: i in order <==> i in ids - rest
      decreases rest
    {
      var i :| i in rest;
      ghost var before, k := order, 0;
      order, k := Insert(less, order, i);
      rest := rest - {i};
      assert forall x :: x in before <==> x in before[..k] || x in before[k..];
    }
    assert forall i, j :: less(i, j) <==> Before(shape, i, j);
    LargerFirst(shape, order);
  }

  lemma LargerFirst(shape: map<nat, (nat, nat)>, order: seq<nat>)
    requires Sorted(shape, order) && forall i :: i in order ==> i in shape
    ensures forall a, b :: 0 <= a < b < |order| ==>
              (order[a] in shape && order[b] in shape &&
               (shape[order[a]].1 > shape[order[b]].1 || (shape[order[a]].1 == shape[order[b]].1 && order[a] < order[b])))
  {
    forall a, b | 0 <= a < b < |order|
      ensures order[a] in shape && order[b] in shape && Before(shape, order[a], order[b])
    {
      assert order[a] in order && order[b] in order;
    }
  }

  /** i and j are in their lifetimes at one point of one path. */
  ghost predicate Overlap(f: Func, i: nat, j: nat) {
    exists p, b, k :: FromStart(f, p, b) && TrulyLive(f, p, k, i) && TrulyLive(f, p, k, j)
  }

  /** Each grouped allocation's slot owner: allocations sharing a slot have one shape and
      never overlap on any path, unless a stray end cuts one's lifetime short. */
  ghost predicate SlotsSound(f: Func, at: map<nat, Pos>, rep: map<nat, nat>) {
    && (forall i :: i in rep ==> i in at && AllocatedAt(f, i, at[i]) && rep[i] in rep && rep[rep[i]] == rep[i])
    && (forall i, j :: i in rep && j in rep && i != j && rep[i] == rep[j] ==>
          ShapeAt(f, at[i]) == ShapeAt(f, at[j]) && ApartUnlessHit(f, i, j))
  }

  ghost predicate ApartUnlessHit(f: Func, i: nat, j: nat) {
    Overlap(f, i, j) ==> StrayEndHits(f, i) || StrayEndHits(f, j)
  }

  lemma ApartOnPaths(f: Func, rpo: seq<nat>, i: nat, j: nat)
    requires IsRpo(G(f), f.start, rpo) && !Together(f, rpo, i, j)
    ensures ApartUnlessHit(f, i, j)
  {
    hide On, StrayEndHits;
    CoveredExactly(f, i);
    CoveredExactly(f, j);
    if Covered(f, i) && Covered(f, j) {
      forall p, b, k: nat | FromStart(f, p, b)
        ensures !(TrulyLive(f, p, k, i) && TrulyLive(f, p, k, j))
      {
        assert Reach(G(f), f.start.value, b);
        assert b in rpo;
        var x :| 0 <= x < |rpo| && rpo[x] == b;
        assert LiveAt(f, p, k, i) ==> MayHold(LifeEvent, f, {}, rpo[x], k, i);
        assert LiveAt(f, p, k, j) ==> MayHold(LifeEvent, f, {}, rpo[x], k, j);
      }
    }
  }

  function Owner(gs: seq<Group>, groupOf: map<nat, nat>, i: nat): nat {
    if i in groupOf && groupOf[i] < |gs| && gs[groupOf[i]].members != [] then gs[groupOf[i]].members[0] else i
  }

  lemma OwnersSound(f: Func, rpo: seq<nat>, at: map<nat, Pos>, shape: map<nat, (nat, nat)>, clash: set<(nat, nat)>, order: seq<nat>,
                    gs: seq<Group>, groupOf: map<nat, nat>, rep: map<nat, nat>)
    requires IsRpo(G(f), f.start, rpo) && GroupsOk(shape, clash, order, gs, groupOf)
    requires forall i :: i in order ==> i in at && AllocatedAt(f, i, at[i]) && i in shape && shape[i] == ShapeAt(f, at[i])
    requires forall i, j :: i in order && j in order && i != j ==> ((i, j) in clash <==> Together(f, rpo, i, j))
    requires (forall i :: i in rep <==> i in order) && forall i :: i in rep ==> rep[i] == Owner(gs, groupOf, i)
    ensures SlotsSound(f, at, rep)
  {
    hide Together, ApartUnlessHit, IsRpo, ShapeAt, GroupsOk, Owner;
    forall i | i in rep
      ensures rep[i] in rep && rep[rep[i]] == rep[i]
    {
      OwnerIs(shape, clash, order, gs, groupOf, i);
      OwnerIs(shape, clash, order, gs, groupOf, rep[i]);
    }
    forall i, j | i in rep && j in rep && i != j && rep[i] == rep[j]
      ensures ShapeAt(f, at[i]) == ShapeAt(f, at[j]) && ApartUnlessHit(f, i, j)
    {
      SameOwner(shape, clash, order, gs, groupOf, i, j);
      ApartOnPaths(f, rpo, i, j);
    }
  }

  lemma OwnerIs(shape: map<nat, (nat, nat)>, clash: set<(nat, nat)>, order: seq<nat>, gs: seq<Group>, groupOf: map<nat, nat>, i: nat)
    requires GroupsOk(shape, clash, order, gs, groupOf) && i in order
    ensures i in groupOf && Owner(gs, groupOf, i) in order && Owner(gs, groupOf, i) in groupOf
    ensures groupOf[Owner(gs, groupOf, i)] == groupOf[i] && Owner(gs, groupOf, Owner(gs, groupOf, i)) == Owner(gs, groupOf, i)
  {
    assert GroupOk(shape, clash, gs[groupOf[i]]);
    var o := gs[groupOf[i]].members[0];
    assert o in gs[groupOf[i]].members;
  }

  lemma SameOwner(shape: map<nat, (nat, nat)>, clash: set<(nat, nat)>, order: seq<nat>, gs: seq<Group>, groupOf: map<nat, nat>, i: nat, j: nat)
    requires GroupsOk(shape, clash, order, gs, groupOf) && i in order && j in order && i != j
    requires Owner(gs, groupOf, i) == Owner(gs, groupOf, j)
    ensures (i, j) !in clash && i in shape && j in shape && shape[i] == shape[j]
  {
    OwnerIs(shape, clash, order, gs, groupOf, i);
    OwnerIs(shape, clash, order, gs, groupOf, j);
    assert GroupOk(shape, clash, gs[groupOf[i]]);
  }

  /** Groups the allocations with both markers; fewer than two are left alone. */
  method AllocaGroups(f: Func, preds: seq<seq<nat>>, rpo: seq<nat>) returns (at: map<nat, Pos>, rep: map<nat, nat>, ghost marked: set<nat>)
    requires Graphy(f, preds, rpo, {})
    ensures SlotsSound(f, at, rep) && (forall i: nat :: i in at <==> HasAlloc(f, i)) && forall i :: i in at ==> AllocatedAt(f, i, at[i])
    ensures forall i: nat :: i in marked <==> HasAlloc(f, i) && HasMark(f, i, true) && HasMark(f, i, false)
    ensures forall i: nat :: i in rep <==> i in marked && |marked| >= 2
    ensures forall i, j :: marked == {i, j} && i != j && ShapeAt(f, at[i]) == ShapeAt(f, at[j]) && !Together(f, rpo, i, j) ==> rep[i] == rep[j]
  {
    hide GroupsOk, Together, LiveIn, IsRpo, SlotsSound, ShapeAt, HasAlloc, HasMark, NoneWasted;
    var starts, ends;
    at, starts, ends := Collect(f);
    var ids := set i | i in at && i in starts && i in ends;
    marked := ids;
    if |ids| < 2 {
      NothingShared(f, at);
      return at, map[], marked;
    }
    rep := GroupMarked(f, preds, rpo, at, ids);
  }

  /** The slot owners of the marked allocations. */
  method GroupMarked(f: Func, preds: seq<seq<nat>>, rpo: seq<nat>, at: map<nat, Pos>, ids: set<nat>) returns (rep: map<nat, nat>)
    requires Graphy(f, preds, rpo, {}) && forall i :: i in ids ==> i in at && AllocatedAt(f, i, at[i])
    ensures SlotsSound(f, at, rep) && rep.Keys == ids
    ensures forall i, j :: ids == {i, j} && i != j && ShapeAt(f, at[i]) == ShapeAt(f, at[j]) && !Together(f, rpo, i, j) ==> rep[i] == rep[j]
  {
    hide GroupsOk, Together, LiveIn, IsRpo, SlotsSound, ShapeAt, NoneWasted, Sorted, Owner;
    var any := BlockLive(f, ids, preds, rpo);
    var shape := map i | i in ids :: ShapeAt(f, at[i]);
    var order := SortBySize(shape, ids);
    var clash := Interference(f, rpo, order, any);
    var gs, groupOf := Assign(order, shape, clash);
    rep := map i | i in ids :: Owner(gs, groupOf, i);
    OwnersSound(f, rpo, at, shape, clash, order, gs, groupOf, rep);
    forall i, j | ids == {i, j} && i != j && ShapeAt(f, at[i]) == ShapeAt(f, at[j]) && !Together(f, rpo, i, j)
      ensures rep[i] == rep[j]
    {
      TwoShare(shape, clash, order, gs, groupOf, i, j);
    }
  }

  /** Two allocations of one shape that do not clash share a slot. */
  lemma TwoShare(shape: map<nat, (nat, nat)>, clash: set<(nat, nat)>, order: seq<nat>, gs: seq<Group>, groupOf: map<nat, nat>, i: nat, j: nat)
    requires GroupsOk(shape, clash, order, gs, groupOf) && NoneWasted(clash, gs) && (forall x :: x in order <==> x == i || x == j)
    requires i in shape && j in shape && shape[i] == shape[j] && (i, j) !in clash && (j, i) !in clash && i != j
    ensures Owner(gs, groupOf, i) == Owner(gs, groupOf, j)
  {
    hide GroupOk;
    if groupOf[i] != groupOf[j] {
      LoneMember(shape, clash, order, gs, groupOf, i, j);
      LoneMember(shape, clash, order, gs, groupOf, j, i);
      ApartNotNeeded(clash, gs[groupOf[i]], gs[groupOf[j]], i, j);
    }
  }

  lemma ApartNotNeeded(clash: set<(nat, nat)>, g: Group, h: Group, i: nat, j: nat)
    requires (g.align, g.size) == (h.align, h.size) && (forall m :: m in g.members <==> m == i) && (forall m :: m in h.members <==> m == j)
    requires g.members != [] && g.members[0] == i && h.members != [] && h.members[0] == j && (j, i) !in clash && (i, j) !in clash
    ensures !Needed(clash, g, h) && !Needed(clash, h, g)
  {
  }

  lemma LoneMember(shape: map<nat, (nat, nat)>, clash: set<(nat, nat)>, order: seq<nat>, gs: seq<Group>, groupOf: map<nat, nat>, i: nat, j: nat)
    requires GroupsOk(shape, clash, order, gs, groupOf) && (forall x :: x in order <==> x == i || x == j) && i in shape
    requires i in groupOf && j in groupOf && groupOf[i] != groupOf[j]
    ensures groupOf[i] < |gs| && (forall m :: m in gs[groupOf[i]].members <==> m == i)
    ensures gs[groupOf[i]].members != [] && gs[groupOf[i]].members[0] == i && shape[i] == (gs[groupOf[i]].align, gs[groupOf[i]].size)
  {
    var g := gs[groupOf[i]];
    assert GroupOk(shape, clash, g);
    forall m | m in g.members
      ensures m == i
    {
      assert m in groupOf && groupOf[m] == groupOf[i];
      assert m in order;
    }
    assert g.members[0] in g.members;
  }

  // ----- where the lookup by number goes wrong -----

  /** An end marker on constant number 0 ends allocation 0 for the dataflow. */
  function ConstantEnds(): Func {
    var alloc := (t: nat) => Instr(Alloc(8, 8), Temp(t), [], [], Other(0));
    var mark := (op: Op, r: Ref) => Instr(op, Other(0), [], [r], Other(0));
    Func([], Some(0),
         [Block([], [alloc(0), alloc(1), mark(LifeStart, Temp(0)), mark(LifeEnd, Other(0))], Other(0), [], [Some(1)], []),
          Block([], [mark(LifeStart, Temp(1)), mark(LifeEnd, Temp(1)), mark(LifeEnd, Temp(0))], Other(0), [], [], [])], false)
  }

  lemma ConstantEndsPaths(p: seq<nat>, b: nat)
    requires FromStart(ConstantEnds(), p, b)
    ensures p == [0] || p == [0, 1]
  {
    var f := ConstantEnds();
    var g: Graph := G(f);
    forall x: nat, y: nat | Edge(g, x, y)
      ensures x == 0 && y == 1
    {
      assert Edge(Exec(f), x, y) || Edge(Synthetic(f), x, y);
    }
    if |p| > 1 {
      assert Edge(g, p[0], p[1]);
      assert p[1] == 1;
      assert forall x: nat :: !Edge(g, 1, x);
      AtMostTwo(g, p);
      assert p == [0, 1];
    }
  }

  lemma NothingShared(f: Func, at: map<nat, Pos>)
    ensures SlotsSound(f, at, map[])
  {
  }

  lemma {:induction false} AtMostTwo(g: Graph, p: seq<nat>)
    requires IsPath(g, p) && forall x: nat, y: nat :: Edge(g, x, y) ==> x == 0 && y == 1
    ensures |p| <= 2
  {
    if |p| > 2 {
      PathSuffix(g, p, |p| - 3);
      LastTwo(g, p[|p| - 3..]);
    }
  }

  lemma LastTwo(g: Graph, q: seq<nat>)
    requires IsPath(g, q) && |q| == 3
    ensures exists x: nat, y: nat, z: nat :: Edge(g, x, y) && Edge(g, y, z)
  {
    assert Edge(g, q[0], q[1]) && Edge(g, q[1], q[2]);
  }

  lemma ConstantEndsMarks(i: nat)
    ensures HasAlloc(ConstantEnds(), i) <==> i == 0 || i == 1
    ensures i <= 1 ==> HasMark(ConstantEnds(), i, true) && HasMark(ConstantEnds(), i, false)
  {
    var f := ConstantEnds();
    var b0, b1 := f.blocks[0], f.blocks[1];
    assert b0.instrs[0].to == Temp(0) && b0.instrs[1].to == Temp(1);
    assert TrueMark(b0.instrs[2]) == Some(0) && TrueMark(b1.instrs[0]) == Some(1) && TrueMark(b1.instrs[1]) == Some(1) && TrueMark(b1.instrs[2]) == Some(0);
    assert AllocsIn(b0, i) <==> i == 0 || i == 1;
    assert !AllocsIn(b1, i);
    assert MarksIn(b0, 0, true) && MarksIn(b1, 0, false) && MarksIn(b1, 1, true) && MarksIn(b1, 1, false);
  }

  /** Points of the first block: 1 has not been started. */
  lemma ConstantEndsFirst(k: nat)
    ensures !LiveAt(ConstantEnds(), [0], k, 1)
  {
    var ins := ConstantEnds().blocks[0].instrs;
    assert forall x :: 0 <= x < |ins| ==> LifeEvent(ins[x], 1).None?;
    if k <= |ins| {
      StaysOff(ins, k, 1);
    }
  }

  lemma {:induction false} StaysOff(ins: seq<Instr>, k: nat, i: nat)
    requires k <= |ins| && forall x :: 0 <= x < k ==> LifeEvent(ins[x], i) != Some(true)
    ensures !OnAfter(LifeEvent, ins, k, i, false)
  {
    if k > 0 {
      StaysOff(ins, k - 1, i);
    }
  }

  /** Points of the second block: the constant has switched 0 off. */
  lemma ConstantEndsSecond(k: nat)
    ensures !LiveAt(ConstantEnds(), [0, 1], k, 0)
  {
    var f := ConstantEnds();
    var a, b := f.blocks[0].instrs, f.blocks[1].instrs;
    assert LifeEvent(a[3], 0) == Some(false);
    assert !OnAfter(LifeEvent, a, 4, 0, OnEntering(LifeEvent, f, {}, [0], 0));
    assert [0, 1][..1] == [0];
    assert !OnAtEnd(LifeEvent, f, {}, [0], 0);
    assert forall x :: 0 <= x < |b| ==> LifeEvent(b[x], 0) != Some(true);
    if k <= |b| {
      StaysOff(b, k, 0);
    }
  }

  /** In the second block, after 1 is started, both are in their lifetimes. */
  lemma ConstantEndsBoth()
    ensures TrulyLive(ConstantEnds(), [0, 1], 1, 0) && TrulyLive(ConstantEnds(), [0, 1], 1, 1)
    ensures TrulyLive(ConstantEnds(), [0], 3, 0)
  {
    var f := ConstantEnds();
    var a, b := f.blocks[0].instrs, f.blocks[1].instrs;
    assert [0, 1][..1] == [0];
    assert TrueEvent(a[2], 0) == Some(true) && TrueEvent(a[3], 0).None?;
    assert OnAfter(TrueEvent, a, 3, 0, false) && OnAfter(TrueEvent, a, 4, 0, false);
    assert OnAtEnd(TrueEvent, f, {}, [0], 0);
    assert OnEntering(TrueEvent, f, {}, [0, 1], 0);
    assert TrueEvent(b[0], 0).None? && TrueEvent(b[0], 1) == Some(true);
    OneStep(b, 0, true);
    OneStep(b, 1, OnEntering(TrueEvent, f, {}, [0, 1], 1));
  }

  lemma OneStep(ins: seq<Instr>, i: nat, on: bool)
    requires |ins| > 0
    ensures OnAfter(TrueEvent, ins, 1, i, on) == Apply(TrueEvent, ins[0], i, on)
  {
    assert OnAfter(TrueEvent, ins, 0, i, on) == on;
  }

  /** Both allocations are grouped and of one shape, the dataflow never sees them in one
      block, so they share a slot; yet they overlap. */
  lemma ConstantEndsLifetime(rpo: seq<nat>)
    requires IsRpo(G(ConstantEnds()), Some(0), rpo)
    ensures !Together(ConstantEnds(), rpo, 0, 1) && Overlap(ConstantEnds(), 0, 1) && StrayEndHits(ConstantEnds(), 0)
    ensures forall i: nat :: HasAlloc(ConstantEnds(), i) <==> i == 0 || i == 1
    ensures forall i: nat :: i <= 1 ==> HasMark(ConstantEnds(), i, true) && HasMark(ConstantEnds(), i, false)
  {
    hide LiveAt, TrulyLive, IsRpo, HasAlloc, HasMark;
    var f := ConstantEnds();
    forall i: nat
      ensures HasAlloc(f, i) <==> i == 0 || i == 1
      ensures i <= 1 ==> HasMark(f, i, true) && HasMark(f, i, false)
    {
      ConstantEndsMarks(i);
    }
    ConstantEndsRuns();
    ConstantEndsBoth();
    assert FromStart(f, [0, 1], 1) && FromStart(f, [0], 0);
    assert Overlap(f, 0, 1);
    assert HitAt(f, [0], 0, 3, 0);
    forall b: nat
      ensures !(LiveIn(f, b, 0) && LiveIn(f, b, 1))
    {
      ConstantEndsApart(b);
    }
  }

  lemma ConstantEndsRuns()
    ensures FromStart(ConstantEnds(), [0], 0) && FromStart(ConstantEnds(), [0, 1], 1)
  {
    var f := ConstantEnds();
    var g: Graph := G(f);
    assert Exec(f)[0] == [Some(1)];
    assert Edge(Exec(f), 0, 1);
    assert Edge(g, 0, 1);
  }

  lemma ConstantEndsApart(b: nat)
    ensures !(LiveIn(ConstantEnds(), b, 0) && LiveIn(ConstantEnds(), b, 1))
  {
    hide On, FromStart;
    var f := ConstantEnds();
    forall p, k: nat | FromStart(f, p, b)
      ensures b == 0 ==> !On(LifeEvent, f, {}, p, k, 1)
      ensures b != 0 ==> !On(LifeEvent, f, {}, p, k, 0)
    {
      ConstantEndsPaths(p, b);
      EndsAt(f, p, b);
      ConstantEndsFirst(k);
      ConstantEndsSecond(k);
    }
  }

  lemma EndsAt(f: Func, p: seq<nat>, b: nat)
    requires FromStart(f, p, b)
    ensures |p| > 0 && p[|p| - 1] == b
  {
  }
}
