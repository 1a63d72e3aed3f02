/** The SSA dominance checker (analysis/ssacheck.go), proved against paths. */
module SsaCheck {
  import opened Graphs
  import opened Cfg
  import opened DomTrees
  import opened Ir

  // ----- where temporaries are defined -----

  ghost predicate PhiDefines(b: Block, t: nat) {
    exists j :: 0 <= j < |b.phis| && b.phis[j].to == Temp(t)
  }

  /** A fixed stack allocation is available from function entry on. */
  predicate Hoisted(f: Func, in_: Instr) {
    in_.op.Alloc? && f.start.Some?
  }

  ghost predicate Allocates(f: Func, t: nat) {
    exists b, i :: 0 <= b < |f.blocks| && 0 <= i < |f.blocks[b].instrs| &&
                   Hoisted(f, f.blocks[b].instrs[i]) && f.blocks[b].instrs[i].to == Temp(t)
  }

  ghost predicate InstrDefines(f: Func, in_: Instr, t: nat) {
    (in_.to == Temp(t) && !Hoisted(f, in_)) || Temp(t) in in_.defs
  }

  /** Reaching index i of block b defines t; index -1 is the block's top. */
  ghost predicate DefSite(f: Func, t: nat, b: nat, i: int) {
    && b < |f.blocks|
    && (i == -1 ==> PhiDefines(f.blocks[b], t) || (f.start == Some(b) && (t in f.params || Allocates(f, t))))
    && (i != -1 ==> 0 <= i < |f.blocks[b].instrs| && InstrDefines(f, f.blocks[b].instrs[i], t))
  }

  ghost predicate HasDef(f: Func, t: nat) {
    exists b, i :: DefSite(f, t, b, i)
  }

  /** Single assignment: a temporary has one definition site. */
  ghost predicate SingleDef(f: Func) {
    forall t, b, i, b', i' :: DefSite(f, t, b, i) && DefSite(f, t, b', i') ==> b == b' && i == i'
  }

  // ----- what the checker promises -----

  /** Along path p, t is defined before index idx of the last block. */
  ghost predicate DefinedOn(f: Func, p: seq<nat>, idx: int, t: nat) {
    exists k, i :: 0 <= k < |p| && DefSite(f, t, p[k], i) && (k < |p| - 1 || i < idx)
  }

  /** t is defined before index idx of block b on every path from the entry. */
  ghost predicate UseOk(f: Func, t: nat, b: nat, idx: int) {
    f.start.Some? ==> forall p :: IsPathFromTo(G(f), p, f.start.value, b) ==> DefinedOn(f, p, idx, t)
  }

  ghost predicate RefOk(f: Func, r: Ref, b: nat, idx: int) {
    r.Temp? && HasDef(f, r.id) ==> UseOk(f, r.id, b, idx)
  }

  /** A phi argument is used at the exit of the predecessor it comes from. */
  ghost predicate PhiArgOk(f: Func, p: Phi, k: nat)
    requires WellFormedPhi(f, p) && k < |p.args|
  {
    p.blocks[k].Some? ==> RefOk(f, p.args[k], p.blocks[k].value, |f.blocks[p.blocks[k].value].instrs|)
  }

  ghost predicate PhiOk(f: Func, p: Phi) {
    WellFormedPhi(f, p) && forall k :: 0 <= k < |p.args| ==> PhiArgOk(f, p, k)
  }

  ghost predicate RefsOk(f: Func, rs: seq<Ref>, b: nat, idx: int) {
    forall k :: 0 <= k < |rs| ==> RefOk(f, rs[k], b, idx)
  }

  ghost predicate BlockOk(f: Func, b: nat)
    requires b < |f.blocks|
  {
    var blk := f.blocks[b];
    && (forall j :: 0 <= j < |blk.phis| ==> PhiOk(f, blk.phis[j]))
    && (forall i :: 0 <= i < |blk.instrs| ==> RefsOk(f, blk.instrs[i].args, b, i))
    && RefOk(f, blk.jmpArg, b, |blk.instrs|)
    && RefsOk(f, blk.jmpArgs, b, |blk.instrs|)
  }

  /** What the checker looks at: phi arguments, argument lists and terminators. */
  ghost predicate AllArgsDefined(f: Func) {
    forall b :: 0 <= b < |f.blocks| && Reachable(f, b) ==> BlockOk(f, b)
  }

  ghost predicate BlockUsesOk(f: Func, b: nat)
    requires b < |f.blocks|
  {
    BlockOk(f, b) && forall i :: 0 <= i < |f.blocks[b].instrs| ==> RefsOk(f, Uses(f.blocks[b].instrs[i]), b, i)
  }

  /** What it is for: every value an instruction reads, its closure environment too. */
  ghost predicate AllUsesDefined(f: Func) {
    forall b :: 0 <= b < |f.blocks| && Reachable(f, b) ==> BlockUsesOk(f, b)
  }

  // ----- dominance decides it -----

  lemma PassedOnEveryPath(f: Func, t: nat, d: nat, i: int, b: nat, idx: int)
    requires DefSite(f, t, d, i) && f.start.Some?
    requires if d == b then i < idx else PathDom(G(f), f.start.value, d, b)
    ensures UseOk(f, t, b, idx)
  {
    forall p | IsPathFromTo(G(f), p, f.start.value, b)
      ensures DefinedOn(f, p, idx, t)
    {
      if d == b {
        assert DefSite(f, t, p[|p| - 1], i);
      } else {
        var k :| 0 <= k < |p| && p[k] == d;
        assert DefSite(f, t, p[k], i);
      }
    }
  }

  /** A reachable block is reached by a path that holds it only at the end. */
  lemma {:induction false} FirstArrival(g: Graph, p: seq<nat>, s: nat, b: nat) returns (q: seq<nat>)
    requires IsPathFromTo(g, p, s, b)
    ensures IsPathFromTo(g, q, s, b) && forall k :: 0 <= k < |q| - 1 ==> q[k] != b
    decreases |p|
  {
    if k :| 0 <= k < |p| - 1 && p[k] == b {
      PathPrefix(g, p, k);
      q := FirstArrival(g, p[..k + 1], s, b);
    } else {
      q := p;
    }
  }

  lemma MissedOnSomePath(f: Func, t: nat, d: nat, i: int, b: nat, idx: int)
    requires SingleDef(f) && DefSite(f, t, d, i) && f.start.Some? && Reachable(f, b)
    requires if d == b then i >= idx else !PathDom(G(f), f.start.value, d, b)
    ensures !UseOk(f, t, b, idx)
  {
    var g, s := G(f), f.start.value;
    var p: seq<nat>;
    if d == b {
      var q :| IsPathFromTo(g, q, s, b);
      p := FirstArrival(g, q, s, b);
    } else {
      p :| IsPathFromTo(g, p, s, b) && d !in p;
    }
    forall k, j | 0 <= k < |p| && DefSite(f, t, p[k], j)
      ensures k == |p| - 1 && j >= idx
    {
      assert p[k] == d && j == i;
    }
  }

  // ----- on the fields -----

  /** Where a temporary is defined: at the top of a block by a phi; at the function's
      entry as a parameter or a fixed stack allocation; else where an instruction writes
      it. */
  lemma SitesAre(f: Func, t: nat, b: nat, i: int)
    ensures DefSite(f, t, b, i) <==> (b < |f.blocks| &&
              if i == -1 then
                (exists j :: 0 <= j < |f.blocks[b].phis| && f.blocks[b].phis[j].to == Temp(t))
                || (f.start == Some(b) &&
                    (t in f.params || exists c, k :: 0 <= c < |f.blocks| && 0 <= k < |f.blocks[c].instrs| &&
                                                     f.blocks[c].instrs[k].op.Alloc? && f.blocks[c].instrs[k].to == Temp(t)))
              else 0 <= i < |f.blocks[b].instrs| &&
                   (Temp(t) in f.blocks[b].instrs[i].defs ||
                    (f.blocks[b].instrs[i].to == Temp(t) && !(f.blocks[b].instrs[i].op.Alloc? && f.start.Some?))))
  {
    if b < |f.blocks| && i == -1 && f.start == Some(b) {
      if c, k :| 0 <= c < |f.blocks| && 0 <= k < |f.blocks[c].instrs| && f.blocks[c].instrs[k].op.Alloc? && f.blocks[c].instrs[k].to == Temp(t) {
        assert Hoisted(f, f.blocks[c].instrs[k]);
      }
    }
  }

  /** A reachable block that reads t as an argument at or before the instruction that
      defines it, no stack allocation, is not accepted. */
  lemma EarlyReadRejected(f: Func, t: nat, b: nat, j: nat, i: nat)
    requires SingleDef(f) && Reachable(f, b) && b < |f.blocks| && j <= i < |f.blocks[b].instrs|
    requires Temp(t) in f.blocks[b].instrs[j].args && f.blocks[b].instrs[i].to == Temp(t) && !f.blocks[b].instrs[i].op.Alloc?
    ensures !AllArgsDefined(f)
  {
    hide UseOk, SingleDef, Reachable;
    SitesAre(f, t, b, i);
    StartIs(f, b);
    MissedOnSomePath(f, t, b, i, b, j);
    var k :| 0 <= k < |f.blocks[b].instrs[j].args| && f.blocks[b].instrs[j].args[k] == Temp(t);
    assert !RefOk(f, f.blocks[b].instrs[j].args[k], b, j);
    assert !RefsOk(f, f.blocks[b].instrs[j].args, b, j);
    assert !BlockOk(f, b);
  }

  lemma StartIs(f: Func, b: nat)
    requires Reachable(f, b)
    ensures f.start.Some?
  {
  }

  /** In an accepted function, on every path from the entry to a read of a temporary that
      something defines, as an argument of instruction j, by the terminator, or by a phi
      of a reachable block on the edge out, it is a parameter or a stack allocation, or
      the path comes past a phi or an instruction that writes it, in the reading block
      before the read. */
  lemma AcceptedRead(f: Func, p: seq<nat>, j: nat, t: nat, c: nat)
    requires WellFormedFunc(f) && AllArgsDefined(f) && f.start.Some? && IsPath(G(f), p) && p[0] == f.start.value && p[|p| - 1] < |f.blocks|
    requires var b := f.blocks[p[|p| - 1]];
             || (j < |b.instrs| && Temp(t) in b.instrs[j].args)
             || (j == |b.instrs| && (b.jmpArg == Temp(t) || Temp(t) in b.jmpArgs))
             || (j == |b.instrs| && c < |f.blocks| && Reachable(f, c) &&
                 exists x, k :: 0 <= x < |f.blocks[c].phis| && 0 <= k < |f.blocks[c].phis[x].args| && k < |f.blocks[c].phis[x].blocks| &&
                                f.blocks[c].phis[x].args[k] == Temp(t) && f.blocks[c].phis[x].blocks[k] == Some(p[|p| - 1]))
    requires || t in f.params
             || (exists b, k :: 0 <= b < |f.blocks| && 0 <= k < |f.blocks[b].phis| && f.blocks[b].phis[k].to == Temp(t))
             || (exists b, i :: 0 <= b < |f.blocks| && 0 <= i < |f.blocks[b].instrs| &&
                                (f.blocks[b].instrs[i].to == Temp(t) || Temp(t) in f.blocks[b].instrs[i].defs))
    ensures || t in f.params
            || (exists b, i :: 0 <= b < |f.blocks| && 0 <= i < |f.blocks[b].instrs| &&
                               f.blocks[b].instrs[i].op.Alloc? && f.blocks[b].instrs[i].to == Temp(t))
            || (exists x, k :: 0 <= x < |p| && p[x] < |f.blocks| && 0 <= k < |f.blocks[p[x]].phis| && f.blocks[p[x]].phis[k].to == Temp(t))
            || (exists x, i :: 0 <= x < |p| && p[x] < |f.blocks| && 0 <= i < |f.blocks[p[x]].instrs| && (x == |p| - 1 ==> i < j) &&
                               (f.blocks[p[x]].instrs[i].to == Temp(t) || Temp(t) in f.blocks[p[x]].instrs[i].defs))
  {
    var b := p[|p| - 1];
    assert IsPathFromTo(G(f), p, f.start.value, b);
    SomethingDefines(f, t);
    ReadChecked(f, b, j, t, c);
    assert DefinedOn(f, p, j, t);
    var x, i :| 0 <= x < |p| && DefSite(f, t, p[x], i) && (x < |p| - 1 || i < j);
    SitesAre(f, t, p[x], i);
  }

  lemma ReadChecked(f: Func, b: nat, j: nat, t: nat, c: nat)
    requires WellFormedFunc(f) && AllArgsDefined(f) && HasDef(f, t) && Reachable(f, b) && b < |f.blocks|
    requires || (j < |f.blocks[b].instrs| && Temp(t) in f.blocks[b].instrs[j].args)
             || (j == |f.blocks[b].instrs| && (f.blocks[b].jmpArg == Temp(t) || Temp(t) in f.blocks[b].jmpArgs))
             || (j == |f.blocks[b].instrs| && c < |f.blocks| && Reachable(f, c) &&
                 exists x, k :: 0 <= x < |f.blocks[c].phis| && 0 <= k < |f.blocks[c].phis[x].args| && k < |f.blocks[c].phis[x].blocks| &&
                                f.blocks[c].phis[x].args[k] == Temp(t) && f.blocks[c].phis[x].blocks[k] == Some(b))
    ensures UseOk(f, t, b, j)
  {
    hide UseOk, HasDef, Reachable;
    var blk := f.blocks[b];
    assert BlockOk(f, b);
    if j < |blk.instrs| && Temp(t) in blk.instrs[j].args {
      var k :| 0 <= k < |blk.instrs[j].args| && blk.instrs[j].args[k] == Temp(t);
      assert RefOk(f, blk.instrs[j].args[k], b, j);
    } else if blk.jmpArg == Temp(t) {
      assert RefOk(f, blk.jmpArg, b, j);
    } else if Temp(t) in blk.jmpArgs {
      var k :| 0 <= k < |blk.jmpArgs| && blk.jmpArgs[k] == Temp(t);
      assert RefOk(f, blk.jmpArgs[k], b, j);
    } else {
      assert BlockOk(f, c);
      var x, k :| 0 <= x < |f.blocks[c].phis| && 0 <= k < |f.blocks[c].phis[x].args| && k < |f.blocks[c].phis[x].blocks| &&
                  f.blocks[c].phis[x].args[k] == Temp(t) && f.blocks[c].phis[x].blocks[k] == Some(b);
      assert PhiOk(f, f.blocks[c].phis[x]);
      assert PhiArgOk(f, f.blocks[c].phis[x], k);
    }
  }

  lemma SomethingDefines(f: Func, t: nat)
    requires f.start.Some? && f.start.value < |f.blocks|
    requires || t in f.params
             || (exists b, k :: 0 <= b < |f.blocks| && 0 <= k < |f.blocks[b].phis| && f.blocks[b].phis[k].to == Temp(t))
             || (exists b, i :: 0 <= b < |f.blocks| && 0 <= i < |f.blocks[b].instrs| &&
                                (f.blocks[b].instrs[i].to == Temp(t) || Temp(t) in f.blocks[b].instrs[i].defs))
    ensures HasDef(f, t)
  {
    if t in f.params {
      assert DefSite(f, t, f.start.value, -1);
    } else if b, k :| 0 <= b < |f.blocks| && 0 <= k < |f.blocks[b].phis| && f.blocks[b].phis[k].to == Temp(t) {
      assert DefSite(f, t, b, -1);
    } else {
      var b, i: nat :| 0 <= b < |f.blocks| && 0 <= i < |f.blocks[b].instrs| &&
                       (f.blocks[b].instrs[i].to == Temp(t) || Temp(t) in f.blocks[b].instrs[i].defs);
      SitesAre(f, t, b, i);
      SitesAre(f, t, f.start.value, -1);
    }
  }

  // ----- the closure environments the checker passes over -----

  /** The checker's own test of a use: an earlier definition in the block, or one in a
      dominating block. */
  ghost predicate Guarded(f: Func, t: nat, b: nat, idx: int) {
    f.start.Some? && exists d, i :: DefSite(f, t, d, i) && if d == b then i < idx else PathDom(G(f), f.start.value, d, b)
  }

  lemma GuardDecides(f: Func, t: nat, b: nat, idx: int)
    requires SingleDef(f) && HasDef(f, t) && Reachable(f, b)
    ensures UseOk(f, t, b, idx) <==> Guarded(f, t, b, idx)
  {
    hide UseOk, PathDom, Reachable;
    StartKnown(f, b);
    var d, i :| DefSite(f, t, d, i);
    if Guarded(f, t, b, idx) {
      var e, j :| DefSite(f, t, e, j) && if e == b then j < idx else PathDom(G(f), f.start.value, e, b);
      PassedOnEveryPath(f, t, e, j, b, idx);
    } else {
      MissedOnSomePath(f, t, d, i, b, idx);
    }
  }

  lemma StartKnown(f: Func, b: nat)
    requires Reachable(f, b)
    ensures f.start.Some?
  {
  }

  ghost predicate ContextGuarded(f: Func, b: nat, i: nat)
    requires b < |f.blocks| && i < |f.blocks[b].instrs|
  {
    var r := f.blocks[b].instrs[i].context;
    r.Temp? && HasDef(f, r.id) ==> Guarded(f, r.id, b, i)
  }

  ghost predicate ContextsGuarded(f: Func) {
    forall b, i :: 0 <= b < |f.blocks| && Reachable(f, b) && 0 <= i < |f.blocks[b].instrs| ==> ContextGuarded(f, b, i)
  }

  lemma InstrUsesOk(f: Func, b: nat, i: nat)
    requires SingleDef(f) && Reachable(f, b) && b < |f.blocks| && i < |f.blocks[b].instrs|
    requires RefsOk(f, f.blocks[b].instrs[i].args, b, i)
    ensures RefsOk(f, Uses(f.blocks[b].instrs[i]), b, i) <==> ContextGuarded(f, b, i)
  {
    hide UseOk, Guarded, Reachable, HasDef;
    var in_ := f.blocks[b].instrs[i];
    if in_.context.Temp? {
      assert Uses(in_)[|in_.args|] == in_.context;
      if HasDef(f, in_.context.id) {
        GuardDecides(f, in_.context.id, b, i);
      }
    }
  }

  /** An accepted function has every use defined exactly when each reachable closure
      environment meets the test the checker makes of arguments. */
  lemma AcceptedUsesExactly(f: Func)
    requires SingleDef(f) && AllArgsDefined(f)
    ensures AllUsesDefined(f) <==> ContextsGuarded(f)
  {
    hide RefsOk, Reachable, SingleDef;
    forall b, i | 0 <= b < |f.blocks| && Reachable(f, b) && 0 <= i < |f.blocks[b].instrs|
      ensures RefsOk(f, Uses(f.blocks[b].instrs[i]), b, i) <==> ContextGuarded(f, b, i)
    {
      assert BlockOk(f, b);
      InstrUsesOk(f, b, i);
    }
    if ContextsGuarded(f) {
      forall b | 0 <= b < |f.blocks| && Reachable(f, b)
        ensures BlockUsesOk(f, b)
      {
        assert BlockOk(f, b);
      }
    }
    if AllUsesDefined(f) {
      forall b, i | 0 <= b < |f.blocks| && Reachable(f, b) && 0 <= i < |f.blocks[b].instrs|
        ensures ContextGuarded(f, b, i)
      {
        assert BlockUsesOk(f, b);
      }
    }
  }

  /** A call whose closure environment is defined only after it. */
  function EarlyContext(): Func {
    Func([], Some(0),
         [Block([], [Instr(Call(false), Other(0), [], [], Temp(0)), Instr(Copy, Temp(0), [], [Other(0)], Other(0))],
                Other(0), [], [], [])], false)
  }

  /** Such a function is accepted, and its closure environment is read undefined. */
  lemma EarlyContextAccepted()
    ensures WellFormedFunc(EarlyContext()) && SingleDef(EarlyContext()) && AllArgsDefined(EarlyContext())
    ensures !AllUsesDefined(EarlyContext())
  {
    var f := EarlyContext();
    var g: Graph := G(f);
    assert IsPathFromTo(g, [0], 0, 0);
    assert Reachable(f, 0);
    assert DefSite(f, 0, 0, 1);
    assert forall t, b, i :: DefSite(f, t, b, i) ==> t == 0 && b == 0 && i == 1;
    assert !DefinedOn(f, [0], 0, 0);
    assert !UseOk(f, 0, 0, 0);
    assert Uses(f.blocks[0].instrs[0])[0] == Temp(0);
    assert !RefOk(f, Uses(f.blocks[0].instrs[0])[0], 0, 0);
    assert !BlockUsesOk(f, 0);
  }

  // ----- the checker -----

  datatype Site = Site(blk: nat, idx: int)

  /** The recorded sites are definition sites. */
  ghost predicate Recorded(f: Func, defOf: map<nat, Site>) {
    forall t :: t in defOf ==> DefSite(f, t, defOf[t].blk, defOf[t].idx)
  }

  ghost predicate InstrRecorded(in_: Instr, defOf: map<nat, Site>) {
    && (in_.to.Temp? ==> in_.to.id in defOf)
    && forall k :: 0 <= k < |in_.defs| && in_.defs[k].Temp? ==> in_.defs[k].id in defOf
  }

  ghost predicate BlockRecorded(b: Block, defOf: map<nat, Site>) {
    && (forall j :: 0 <= j < |b.phis| && b.phis[j].to.Temp? ==> b.phis[j].to.id in defOf)
    && (forall i :: 0 <= i < |b.instrs| ==> InstrRecorded(b.instrs[i], defOf))
  }

  function Record(defOf: map<nat, Site>, r: Ref, blk: nat, idx: int): (m: map<nat, Site>)
    ensures defOf.Keys <= m.Keys && (r.Temp? ==> r.id in m)
    ensures forall t :: t in m ==> (t in defOf && m[t] == defOf[t]) || (r == Temp(t) && m[t] == Site(blk, idx))
  {
    if r.Temp? then defOf[r.id := Site(blk, idx)] else defOf
  }

  method RecordInstr(f: Func, b: nat, i: nat, defOf0: map<nat, Site>) returns (defOf: map<nat, Site>)
    requires WellFormedFunc(f) && b < |f.blocks| && i < |f.blocks[b].instrs| && Recorded(f, defOf0)
    ensures Recorded(f, defOf) && defOf0.Keys <= defOf.Keys
    ensures InstrRecorded(f.blocks[b].instrs[i], defOf)
  {
    var in_ := f.blocks[b].instrs[i];
    if in_.op.Alloc? && f.start.Some? {
      assert in_.to.Temp? ==> Allocates(f, in_.to.id);
      defOf := Record(defOf0, in_.to, f.start.value, -1);
    } else {
      defOf := Record(defOf0, in_.to, b, i);
    }
    for k := 0 to |in_.defs|
      invariant Recorded(f, defOf) && defOf0.Keys <= defOf.Keys && (in_.to.Temp? ==> in_.to.id in defOf)
      invariant forall x :: 0 <= x < k && in_.defs[x].Temp? ==> in_.defs[x].id in defOf
    {
      defOf := Record(defOf, in_.defs[k], b, i);
    }
  }

  lemma PhiSite(f: Func, b: nat, j: nat)
    requires b < |f.blocks| && j < |f.blocks[b].phis|
    ensures f.blocks[b].phis[j].to.Temp? ==> DefSite(f, f.blocks[b].phis[j].to.id, b, -1)
  {
    if f.blocks[b].phis[j].to.Temp? {
      SitesAre(f, f.blocks[b].phis[j].to.id, b, -1);
    }
  }

  method RecordBlock(f: Func, b: nat, defOf0: map<nat, Site>) returns (defOf: map<nat, Site>)
    requires WellFormedFunc(f) && b < |f.blocks| && Recorded(f, defOf0)
    ensures Recorded(f, defOf) && defOf0.Keys <= defOf.Keys
    ensures BlockRecorded(f.blocks[b], defOf)
  {
    hide DefSite;
    defOf := defOf0;
    var blk := f.blocks[b];
    for j := 0 to |blk.phis|
      invariant Recorded(f, defOf) && defOf0.Keys <= defOf.Keys
      invariant forall x :: 0 <= x < j && blk.phis[x].to.Temp? ==> blk.phis[x].to.id in defOf
    {
      PhiSite(f, b, j);
      defOf := Record(defOf, blk.phis[j].to, b, -1);
    }
    for i := 0 to |blk.instrs|
      invariant Recorded(f, defOf) && defOf0.Keys <= defOf.Keys
      invariant forall x :: 0 <= x < |blk.phis| && blk.phis[x].to.Temp? ==> blk.phis[x].to.id in defOf
      invariant forall x :: 0 <= x < i ==> InstrRecorded(blk.instrs[x], defOf)
    {
      defOf := RecordInstr(f, b, i, defOf);
    }
  }

  /** Where each temporary is defined. */
  method RecordDefs(f: Func) returns (defOf: map<nat, Site>)
    requires WellFormedFunc(f)
    ensures Recorded(f, defOf) && forall t :: HasDef(f, t) ==> t in defOf
  {
    defOf := map[];
    if f.start.Some? {
      for k := 0 to |f.params|
        invariant Recorded(f, defOf) && forall x :: 0 <= x < k ==> f.params[x] in defOf
      {
        defOf := Record(defOf, Temp(f.params[k]), f.start.value, -1);
      }
    }
    ghost var params := defOf.Keys;
    for b := 0 to |f.blocks|
      invariant Recorded(f, defOf) && params <= defOf.Keys
      invariant forall x :: 0 <= x < b ==> BlockRecorded(f.blocks[x], defOf)
    {
      defOf := RecordBlock(f, b, defOf);
    }
    forall t | HasDef(f, t)
      ensures t in defOf
    {
      var b, i :| DefSite(f, t, b, i);
      RecordedHolds(f, defOf, t, b, i);
    }
  }

  lemma RecordedHolds(f: Func, defOf: map<nat, Site>, t: nat, b: nat, i: int)
    requires DefSite(f, t, b, i)
    requires f.start.Some? ==> forall x :: 0 <= x < |f.params| ==> f.params[x] in defOf
    requires forall x :: 0 <= x < |f.blocks| ==> BlockRecorded(f.blocks[x], defOf)
    ensures t in defOf
  {
    if i != -1 {
      assert InstrRecorded(f.blocks[b].instrs[i], defOf);
      var in_ := f.blocks[b].instrs[i];
      if Temp(t) in in_.defs {
        var k :| 0 <= k < |in_.defs| && in_.defs[k] == Temp(t);
      }
    } else if Allocates(f, t) {
      var c, j :| 0 <= c < |f.blocks| && 0 <= j < |f.blocks[c].instrs| &&
                  Hoisted(f, f.blocks[c].instrs[j]) && f.blocks[c].instrs[j].to == Temp(t);
      assert InstrRecorded(f.blocks[c].instrs[j], defOf);
    }
  }

  /** Everything a check reads. */
  ghost predicate Context(f: Func, rpo: seq<nat>, num: map<nat, int>, d: DomTree, defOf: map<nat, Site>) {
    && SingleDef(f) && IsRpo(G(f), f.start, rpo) && IsNumbering(rpo, num) && IsDomTree(G(f), rpo, d)
    && Recorded(f, defOf) && forall t :: HasDef(f, t) ==> t in defOf
  }

  lemma UnreachableUseOk(f: Func, t: nat, b: nat, idx: int)
    requires !Reachable(f, b)
    ensures UseOk(f, t, b, idx)
  {
  }

  /** One use. */
  method Check(f: Func, ghost rpo: seq<nat>, num: map<nat, int>, d: DomTree, defOf: map<nat, Site>,
               r: Ref, useBlk: nat, useIdx: int)
    returns (ok: bool)
    requires Context(f, rpo, num, d, defOf)
    ensures ok <==> RefOk(f, r, useBlk, useIdx)
  {
    if r.Other? {
      return true;
    }
    if useBlk !in num {
      UnreachableUseOk(f, r.id, useBlk, useIdx);
      return true;
    }
    if r.id !in defOf {
      return true;
    }
    var site := defOf[r.id];
    assert DefSite(f, r.id, site.blk, site.idx);
    assert HasDef(f, r.id) && Reachable(f, useBlk) && rpo[0] == f.start.value;
    if site.blk == useBlk {
      ok := site.idx < useIdx;
    } else {
      ok := Dominates(G(f), rpo, d, site.blk, useBlk);
    }
    if ok {
      PassedOnEveryPath(f, r.id, site.blk, site.idx, useBlk, useIdx);
    } else {
      MissedOnSomePath(f, r.id, site.blk, site.idx, useBlk, useIdx);
    }
  }

  method CheckAll(f: Func, ghost rpo: seq<nat>, num: map<nat, int>, d: DomTree, defOf: map<nat, Site>,
                  rs: seq<Ref>, useBlk: nat, useIdx: int)
    returns (ok: bool)
    requires Context(f, rpo, num, d, defOf)
    ensures ok <==> RefsOk(f, rs, useBlk, useIdx)
  {
    hide RefOk, Context;
    for k := 0 to |rs|
      invariant forall x :: 0 <= x < k ==> RefOk(f, rs[x], useBlk, useIdx)
    {
      ok := Check(f, rpo, num, d, defOf, rs[k], useBlk, useIdx);
      if !ok {
        return;
      }
    }
    ok := true;
  }

  method CheckPhi(f: Func, ghost rpo: seq<nat>, num: map<nat, int>, d: DomTree, defOf: map<nat, Site>, p: Phi)
    returns (ok: bool)
    requires Context(f, rpo, num, d, defOf) && WellFormedPhi(f, p)
    ensures ok <==> PhiOk(f, p)
  {
    hide RefOk, Context;
    for k := 0 to |p.args|
      invariant forall x :: 0 <= x < k ==> PhiArgOk(f, p, x)
    {
      if p.blocks[k].None? {
        continue;
      }
      var pred := p.blocks[k].value;
      ok := Check(f, rpo, num, d, defOf, p.args[k], pred, |f.blocks[pred].instrs|);
      if !ok {
        assert !PhiArgOk(f, p, k);
        return;
      }
    }
    ok := true;
  }

  method CheckBlock(f: Func, ghost rpo: seq<nat>, num: map<nat, int>, d: DomTree, defOf: map<nat, Site>, b: nat)
    returns (ok: bool)
    requires Context(f, rpo, num, d, defOf) && WellFormedFunc(f) && b < |f.blocks|
    ensures ok <==> BlockOk(f, b)
  {
    hide PhiOk, RefOk, RefsOk, Context;
    var blk := f.blocks[b];
    for j := 0 to |blk.phis|
      invariant forall x :: 0 <= x < j ==> PhiOk(f, blk.phis[x])
    {
      ok := CheckPhi(f, rpo, num, d, defOf, blk.phis[j]);
      if !ok {
        return;
      }
    }
    for i := 0 to |blk.instrs|
      invariant forall x :: 0 <= x < i ==> RefsOk(f, blk.instrs[x].args, b, x)
    {
      ok := CheckAll(f, rpo, num, d, defOf, blk.instrs[i].args, b, i);
      if !ok {
        return;
      }
    }
    ok := Check(f, rpo, num, d, defOf, blk.jmpArg, b, |blk.instrs|);
    if !ok {
      return;
    }
    ok := CheckAll(f, rpo, num, d, defOf, blk.jmpArgs, b, |blk.instrs|);
  }

  method CheckBlocks(f: Func, ghost rpo: seq<nat>, num: map<nat, int>, d: DomTree, defOf: map<nat, Site>)
    returns (ok: bool)
    requires Context(f, rpo, num, d, defOf) && WellFormedFunc(f)
    requires forall b: nat :: b in num <==> Reachable(f, b)
    ensures ok <==> AllArgsDefined(f)
  {
    hide BlockOk, Context, Reachable;
    for b := 0 to |f.blocks|
      invariant forall x :: 0 <= x < b && Reachable(f, x) ==> BlockOk(f, x)
    {
      if b !in num {
        continue;
      }
      ok := CheckBlock(f, rpo, num, d, defOf, b);
      if !ok {
        assert Reachable(f, b);
        return;
      }
    }
    ok := true;
  }

  /** Accepts a single-definition function exactly when every argument that is a defined
      temporary is defined beforehand on every path from the entry; then every use is,
      exactly when the closure environments are. A lowered function is not checked. */
  method VerifyDominance(f: Func) returns (ok: bool)
    requires WellFormedFunc(f) && SingleDef(f)
    ensures ok <==> f.lowered || AllArgsDefined(f)
    ensures ok && !f.lowered ==> (AllUsesDefined(f) <==> ContextsGuarded(f))
    ensures forall b: nat, j, i, t :: (Reachable(f, b) && b < |f.blocks| && 0 <= j <= i < |f.blocks[b].instrs| && !f.lowered &&
              Temp(t) in f.blocks[b].instrs[j].args && f.blocks[b].instrs[i].to == Temp(t) && !f.blocks[b].instrs[i].op.Alloc?) ==> !ok
  {
    if f.lowered {
      return true;
    }
    var c := new CFG.Build(Exec(f), Synthetic(f), f.start);
    FullWellFormed(Exec(f), Synthetic(f));
    var d := Dominators(c);
    var defOf := RecordDefs(f);
    ok := CheckBlocks(f, c.rpo, c.num, d, defOf);
    if ok {
      AcceptedUsesExactly(f);
    }
    RejectsEarlyReads(f);
  }

  lemma RejectsEarlyReads(f: Func)
    requires SingleDef(f)
    ensures forall b: nat, j, i, t :: (Reachable(f, b) && b < |f.blocks| && 0 <= j <= i < |f.blocks[b].instrs| &&
              Temp(t) in f.blocks[b].instrs[j].args && f.blocks[b].instrs[i].to == Temp(t) && !f.blocks[b].instrs[i].op.Alloc?) ==>
              !AllArgsDefined(f)
  {
    hide SingleDef, AllArgsDefined, Reachable;
    forall b: nat, j: nat, i: nat, t | Reachable(f, b) && b < |f.blocks| && j <= i < |f.blocks[b].instrs| &&
      Temp(t) in f.blocks[b].instrs[j].args && f.blocks[b].instrs[i].to == Temp(t) && !f.blocks[b].instrs[i].op.Alloc?
      ensures !AllArgsDefined(f)
    {
      EarlyReadRejected(f, t, b, j, i);
    }
  }
}
