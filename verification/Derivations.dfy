/** Which stack allocations a temporary may hold an address into
    (pointerAllocationSources in arm64/regalloc.go): addresses are carried by copies,
    constant additions, selects and phis. */
module Derivations {
  import opened Graphs
  import opened Ir

  /** Facts about the function the analysis reads: allocations with pointer words,
      integer constants, allocations whose address leaves the frame, and where a call
      returning on the stack puts its result. */
  datatype Facts = Facts(pointerAllocs: set<nat>, intConsts: set<nat>, escaping: set<nat>, stackResult: Instr -> Option<nat>)

  /** The operands whose address the result may still name. */
  function DerivationBases(fa: Facts, in_: Instr): seq<Ref> {
    match in_.op
    case Copy => if |in_.args| == 1 && in_.args[0].Temp? then [in_.args[0]] else []
    case Add =>
      if |in_.args| == 2 && in_.args[0].Temp? && in_.args[1].Other? && in_.args[1].code in fa.intConsts then [in_.args[0]] else []
    case Sel => if |in_.args| == 3 then in_.args[1..3] else []
    case _ => []
  }

  ghost predicate PhiCarries(p: Phi, base: nat, result: nat) {
    p.to == Temp(result) && Names(p.args, base)
  }

  ghost predicate InstrCarries(fa: Facts, in_: Instr, base: nat, result: nat) {
    in_.to == Temp(result) && !in_.op.Alloc? && Names(DerivationBases(fa, in_), base)
  }

  /** result may name what base names. */
  ghost predicate Carries(f: Func, fa: Facts, base: nat, result: nat) {
    exists b :: 0 <= b < |f.blocks| && BlockCarries(fa, f.blocks[b], base, result)
  }

  ghost predicate BlockCarries(fa: Facts, b: Block, base: nat, result: nat) {
    || (exists j :: 0 <= j < |b.phis| && PhiCarries(b.phis[j], base, result))
    || (exists k :: 0 <= k < |b.instrs| && InstrCarries(fa, b.instrs[k], base, result))
  }

  /** a is a pointer-bearing allocation of the function. */
  ghost predicate Tracked(f: Func, fa: Facts, a: nat) {
    a in fa.pointerAllocs && exists b :: 0 <= b < |f.blocks| && BlockAllocates(f.blocks[b], a)
  }

  ghost predicate BlockAllocates(b: Block, a: nat) {
    exists k :: 0 <= k < |b.instrs| && b.instrs[k].op.Alloc? && b.instrs[k].to == Temp(a)
  }

  /** A chain of derivations from a to t. */
  ghost predicate Chain(f: Func, fa: Facts, c: seq<nat>, a: nat, t: nat) {
    && |c| > 0 && c[0] == a && c[|c| - 1] == t
    && forall i, j :: 0 <= i && j == i + 1 && j < |c| ==> Carries(f, fa, c[i], c[j])
  }

  ghost predicate Derived(f: Func, fa: Facts, a: nat, t: nat) {
    exists c :: Chain(f, fa, c, a, t)
  }

  lemma DerivedSelf(f: Func, fa: Facts, a: nat)
    ensures Derived(f, fa, a, a)
  {
    assert Chain(f, fa, [a], a, a);
  }

  lemma DerivedStep(f: Func, fa: Facts, a: nat, t: nat, u: nat)
    requires Derived(f, fa, a, t) && Carries(f, fa, t, u)
    ensures Derived(f, fa, a, u)
  {
    hide Carries;
    var c :| Chain(f, fa, c, a, t);
    var d := c + [u];
    forall i, j | 0 <= i && j == i + 1 && j < |d|
      ensures Carries(f, fa, d[i], d[j])
    {
      assert j < |c| ==> Carries(f, fa, c[i], c[j]);
    }
    assert Chain(f, fa, d, a, u);
  }

  // ----- on the fields -----

  /** r may name what t names exactly when it is a phi of t, a copy of t, t plus an
      integer constant, or a select with t as one of its two values. */
  lemma CarriesAre(f: Func, fa: Facts, t: nat, r: nat)
    ensures Carries(f, fa, t, r) <==>
            ((exists b, j :: 0 <= b < |f.blocks| && 0 <= j < |f.blocks[b].phis| &&
                             f.blocks[b].phis[j].to == Temp(r) && Temp(t) in f.blocks[b].phis[j].args)
             || (exists b, k :: 0 <= b < |f.blocks| && 0 <= k < |f.blocks[b].instrs| && f.blocks[b].instrs[k].to == Temp(r) &&
                                var op, args := f.blocks[b].instrs[k].op, f.blocks[b].instrs[k].args;
                                || (op.Copy? && args == [Temp(t)])
                                || (op.Add? && |args| == 2 && args[0] == Temp(t) && args[1].Other? && args[1].code in fa.intConsts)
                                || (op.Sel? && |args| == 3 && (args[1] == Temp(t) || args[2] == Temp(t)))))
  {
    hide InstrCarries;
    forall in_: Instr
      ensures InstrCarries(fa, in_, t, r) <==>
              (in_.to == Temp(r) &&
               (|| (in_.op.Copy? && in_.args == [Temp(t)])
                || (in_.op.Add? && |in_.args| == 2 && in_.args[0] == Temp(t) && in_.args[1].Other? && in_.args[1].code in fa.intConsts)
                || (in_.op.Sel? && |in_.args| == 3 && (in_.args[1] == Temp(t) || in_.args[2] == Temp(t)))))
    {
      InstrCarriesIs(fa, in_, t, r);
    }
    if b :| 0 <= b < |f.blocks| && BlockCarries(fa, f.blocks[b], t, r) {
      if j :| 0 <= j < |f.blocks[b].phis| && PhiCarries(f.blocks[b].phis[j], t, r) {
      } else {
        var k :| 0 <= k < |f.blocks[b].instrs| && InstrCarries(fa, f.blocks[b].instrs[k], t, r);
      }
    }
    forall b, j | 0 <= b < |f.blocks| && 0 <= j < |f.blocks[b].phis| && f.blocks[b].phis[j].to == Temp(r) && Temp(t) in f.blocks[b].phis[j].args
      ensures BlockCarries(fa, f.blocks[b], t, r)
    {
      assert PhiCarries(f.blocks[b].phis[j], t, r);
    }
    forall b, k | 0 <= b < |f.blocks| && 0 <= k < |f.blocks[b].instrs| && InstrCarries(fa, f.blocks[b].instrs[k], t, r)
      ensures BlockCarries(fa, f.blocks[b], t, r)
    {
    }
  }

  lemma InstrCarriesIs(fa: Facts, in_: Instr, t: nat, r: nat)
    ensures InstrCarries(fa, in_, t, r) <==>
            (in_.to == Temp(r) &&
             (|| (in_.op.Copy? && in_.args == [Temp(t)])
              || (in_.op.Add? && |in_.args| == 2 && in_.args[0] == Temp(t) && in_.args[1].Other? && in_.args[1].code in fa.intConsts)
              || (in_.op.Sel? && |in_.args| == 3 && (in_.args[1] == Temp(t) || in_.args[2] == Temp(t)))))
  {
    if |in_.args| == 1 {
      assert in_.args == [in_.args[0]];
    }
    if |in_.args| == 3 {
      assert in_.args[1..3] == [in_.args[1], in_.args[2]];
    }
  }

  /** Nothing is a derivation but a copy of a temporary, a temporary plus an integer
      constant, and a select of two values. */
  lemma DerivesIs(fa: Facts, in_: Instr)
    ensures DerivationBases(fa, in_) != [] <==>
            (|| (in_.op.Copy? && |in_.args| == 1 && in_.args[0].Temp?)
             || (in_.op.Add? && |in_.args| == 2 && in_.args[0].Temp? && in_.args[1].Other? && in_.args[1].code in fa.intConsts)
             || (in_.op.Sel? && |in_.args| == 3))
  {
  }

  /** The map found: a temporary leads to an allocation with pointer words exactly when a
      chain of such steps connects them. */
  lemma SourcesAre(f: Func, fa: Facts, src: map<nat, set<nat>>, t: nat, a: nat)
    requires SourcesExact(f, fa, src)
    ensures (t in src && a in src[t]) <==>
            (a in fa.pointerAllocs
             && (exists b, k :: 0 <= b < |f.blocks| && 0 <= k < |f.blocks[b].instrs| &&
                                f.blocks[b].instrs[k].op.Alloc? && f.blocks[b].instrs[k].to == Temp(a))
             && exists c: seq<nat> :: |c| > 0 && c[0] == a && c[|c| - 1] == t &&
                                      forall i, j :: 0 <= i && j == i + 1 && j < |c| ==> Carries(f, fa, c[i], c[j]))
  {
    hide Carries;
    assert a in Sets(src, t) <==> Tracked(f, fa, a) && Derived(f, fa, a, t);
    if c: seq<nat> :| |c| > 0 && c[0] == a && c[|c| - 1] == t && forall i, j :: 0 <= i && j == i + 1 && j < |c| ==> Carries(f, fa, c[i], c[j]) {
      assert Chain(f, fa, c, a, t);
    }
    if Tracked(f, fa, a) {
      var b :| 0 <= b < |f.blocks| && BlockAllocates(f.blocks[b], a);
    }
    if b, k :| 0 <= b < |f.blocks| && 0 <= k < |f.blocks[b].instrs| && f.blocks[b].instrs[k].op.Alloc? && f.blocks[b].instrs[k].to == Temp(a) {
      assert BlockAllocates(f.blocks[b], a);
    }
  }

  // ----- collecting -----

  /** What carries addresses onward, and the allocations, as the walk has found them. */
  function Get(m: map<nat, seq<nat>>, t: nat): seq<nat> {
    if t in m then m[t] else []
  }

  ghost predicate Dep(deps: map<nat, seq<nat>>, x: nat, y: nat) {
    y in Get(deps, x)
  }

  function Carry(deps: map<nat, seq<nat>>, base: Ref, result: Ref): (r: map<nat, seq<nat>>)
    ensures forall x: nat, y: nat :: Dep(r, x, y) <==> Dep(deps, x, y) || (base == Temp(x) && result == Temp(y))
  {
    if base.Temp? && result.Temp? then deps[base.id := Get(deps, base.id) + [result.id]] else deps
  }

  ghost predicate Names(bases: seq<Ref>, x: nat) {
    Temp(x) in bases
  }

  method CarryAll(deps0: map<nat, seq<nat>>, bases: seq<Ref>, result: Ref) returns (deps: map<nat, seq<nat>>)
    ensures forall x: nat, y: nat :: Dep(deps, x, y) <==> Dep(deps0, x, y) || (Names(bases, x) && result == Temp(y))
  {
    hide Dep;
    deps := deps0;
    for j := 0 to |bases|
      invariant forall x: nat, y: nat :: Dep(deps, x, y) <==> Dep(deps0, x, y) || (Names(bases[..j], x) && result == Temp(y))
    {
      assert forall x: nat :: Names(bases[..j + 1], x) <==> Names(bases[..j], x) || bases[j] == Temp(x) by {
        assert bases[..j + 1] == bases[..j] + [bases[j]];
      }
      deps := Carry(deps, bases[j], result);
    }
    assert bases[..|bases|] == bases;
  }

  method CollectPhis(deps0: map<nat, seq<nat>>, phis: seq<Phi>) returns (deps: map<nat, seq<nat>>)
    ensures forall x: nat, y: nat :: Dep(deps, x, y) <==> Dep(deps0, x, y) || exists j :: 0 <= j < |phis| && PhiCarries(phis[j], x, y)
  {
    hide Dep;
    deps := deps0;
    for j := 0 to |phis|
      invariant forall x: nat, y: nat :: Dep(deps, x, y) <==> (Dep(deps0, x, y) || exists i :: 0 <= i < j && PhiCarries(phis[i], x, y))
    {
      deps := CarryAll(deps, phis[j].args, phis[j].to);
    }
  }

  method CollectInstrs(fa: Facts, deps0: map<nat, seq<nat>>, allocs0: set<nat>, ins: seq<Instr>) returns (deps: map<nat, seq<nat>>, allocs: set<nat>)
    ensures forall x: nat, y: nat :: Dep(deps, x, y) <==> Dep(deps0, x, y) || exists k :: 0 <= k < |ins| && InstrCarries(fa, ins[k], x, y)
    ensures forall a :: a in allocs <==> (a in allocs0 || (a in fa.pointerAllocs && exists k :: 0 <= k < |ins| && ins[k].op.Alloc? && ins[k].to == Temp(a)))
  {
    hide Dep, DerivationBases, Names;
    deps, allocs := deps0, allocs0;
    for k := 0 to |ins|
      invariant forall x: nat, y: nat :: Dep(deps, x, y) <==> (Dep(deps0, x, y) || exists i :: 0 <= i < k && InstrCarries(fa, ins[i], x, y))
      invariant forall a :: a in allocs <==> (a in allocs0 || (a in fa.pointerAllocs && exists i :: 0 <= i < k && ins[i].op.Alloc? && ins[i].to == Temp(a)))
    {
      var in_ := ins[k];
      if !in_.to.Temp? {
        continue;
      }
      if in_.op.Alloc? {
        if in_.to.id in fa.pointerAllocs {
          allocs := allocs + {in_.to.id};
        }
        continue;
      }
      deps := CarryAll(deps, DerivationBases(fa, in_), in_.to);
    }
  }

  method Collect(f: Func, fa: Facts) returns (deps: map<nat, seq<nat>>, allocs: set<nat>)
    ensures forall x: nat, y: nat :: Dep(deps, x, y) <==> Carries(f, fa, x, y)
    ensures forall a :: a in allocs <==> Tracked(f, fa, a)
  {
    hide Dep, PhiCarries, InstrCarries;
    deps, allocs := map[], {};
    NoneYet();
    for b := 0 to |f.blocks|
      invariant forall x: nat, y: nat :: Dep(deps, x, y) <==> exists i :: 0 <= i < b && BlockCarries(fa, f.blocks[i], x, y)
      invariant forall a :: a in allocs <==> (a in fa.pointerAllocs && exists i :: 0 <= i < b && BlockAllocates(f.blocks[i], a))
    {
      deps := CollectPhis(deps, f.blocks[b].phis);
      deps, allocs := CollectInstrs(fa, deps, allocs, f.blocks[b].instrs);
    }
  }

  lemma NoneYet()
    ensures forall x: nat, y: nat :: !Dep(map[], x, y)
  {
  }

  // ----- the worklist -----

  function Sets(m: map<nat, set<nat>>, t: nat): set<nat> {
    if t in m then m[t] else {}
  }

  ghost predicate Justified(f: Func, fa: Facts, reach: map<nat, set<nat>>) {
    forall t, a :: t in reach && a in reach[t] ==> Tracked(f, fa, a) && Derived(f, fa, a, t)
  }

  /** Everything not waiting has been passed on. */
  ghost predicate PassedOn(deps: map<nat, seq<nat>>, reach: map<nat, set<nat>>, waiting: seq<nat>) {
    forall t, u :: t !in waiting && u in Get(deps, t) ==> Sets(reach, t) <= Sets(reach, u)
  }

  ghost predicate Started(allocs: set<nat>, reach: map<nat, set<nat>>) {
    forall a :: a in allocs ==> a in Sets(reach, a)
  }

  /** Temporaries that can hold an address: bounds the search. */
  ghost predicate Bounded(deps: map<nat, seq<nat>>, allocs: set<nat>, all: set<nat>, reach: map<nat, set<nat>>) {
    && allocs <= all && (forall t, u :: u in Get(deps, t) ==> u in all)
    && (forall t :: t in reach ==> t in all && reach[t] <= allocs)
  }

  ghost function Unreached(all: set<nat>, allocs: set<nat>, reach: map<nat, set<nat>>): (m: set<(nat, nat)>)
    ensures forall t, a :: (t, a) in m <==> t in all && a in allocs && a !in Sets(reach, t)
  {
    set t, a | t in all && a in allocs && a !in Sets(reach, t) :: (t, a)
  }

  ghost predicate WorkInv(f: Func, fa: Facts, deps: map<nat, seq<nat>>, allocs: set<nat>, all: set<nat>, reach: map<nat, set<nat>>) {
    && (forall x: nat, y: nat :: Dep(deps, x, y) <==> Carries(f, fa, x, y)) && (forall a :: a in allocs <==> Tracked(f, fa, a))
    && Justified(f, fa, reach) && Started(allocs, reach) && Bounded(deps, allocs, all, reach)
  }

  /** Adding what base reaches to one dependent. */
  lemma AddKeeps(f: Func, fa: Facts, deps: map<nat, seq<nat>>, allocs: set<nat>, all: set<nat>, reach: map<nat, set<nat>>, base: nat, u: nat)
    requires WorkInv(f, fa, deps, allocs, all, reach) && u in Get(deps, base)
    ensures WorkInv(f, fa, deps, allocs, all, reach[u := Sets(reach, u) + Sets(reach, base)])
  {
    hide Derived, Tracked, Carries;
    var more := reach[u := Sets(reach, u) + Sets(reach, base)];
    forall t, a | t in more && a in more[t]
      ensures Tracked(f, fa, a) && Derived(f, fa, a, t)
    {
      if t == u && a !in Sets(reach, u) {
        DerivedStep(f, fa, a, base, u);
      }
    }
  }

  lemma AddShrinks(all: set<nat>, allocs: set<nat>, reach: map<nat, set<nat>>, base: nat, u: nat)
    requires u in all && Sets(reach, base) <= allocs && !(Sets(reach, base) <= Sets(reach, u))
    ensures Unreached(all, allocs, reach[u := Sets(reach, u) + Sets(reach, base)]) < Unreached(all, allocs, reach)
  {
    var a :| a in Sets(reach, base) && a !in Sets(reach, u);
    assert (u, a) in Unreached(all, allocs, reach) && (u, a) !in Unreached(all, allocs, reach[u := Sets(reach, u) + Sets(reach, base)]);
  }

  /** Passes base's set to its dependents, queueing the ones that grow. */
  method PassOn(ghost f: Func, ghost fa: Facts, deps: map<nat, seq<nat>>, ghost allocs: set<nat>, ghost all: set<nat>,
                reach0: map<nat, set<nat>>, base: nat, waiting: seq<nat>)
    returns (reach: map<nat, set<nat>>, queued: seq<nat>)
    requires WorkInv(f, fa, deps, allocs, all, reach0) && PassedOn(deps, reach0, [base] + waiting)
    ensures WorkInv(f, fa, deps, allocs, all, reach) && PassedOn(deps, reach, waiting + queued)
    ensures if queued == [] then reach == reach0 || Unreached(all, allocs, reach) == Unreached(all, allocs, reach0)
            else Unreached(all, allocs, reach) < Unreached(all, allocs, reach0)
  {
    hide WorkInv;
    reach, queued := reach0, [];
    var results := Get(deps, base);
    for j := 0 to |results|
      invariant WorkInv(f, fa, deps, allocs, all, reach) && Sets(reach, base) == Sets(reach0, base)
      invariant forall i :: 0 <= i < j ==> Sets(reach, base) <= Sets(reach, results[i])
      invariant PassedOn(deps, reach, [base] + waiting + queued)
      invariant if queued == [] then Unreached(all, allocs, reach) == Unreached(all, allocs, reach0)
                else Unreached(all, allocs, reach) < Unreached(all, allocs, reach0)
    {
      var u := results[j];
      assert u in Get(deps, base);
      var grew := !(Sets(reach, base) <= Sets(reach, u));
      AddKeeps(f, fa, deps, allocs, all, reach, base, u);
      BoundedOf(f, fa, deps, allocs, all, reach, base, u);
      PassedMore(deps, reach, [base] + waiting + queued, base, u);
      if grew {
        AddShrinks(all, allocs, reach, base, u);
        queued := queued + [u];
      } else {
        assert Sets(reach, u) + Sets(reach, base) == Sets(reach, u);
        SameUnreached(all, allocs, reach, u);
      }
      reach := reach[u := Sets(reach, u) + Sets(reach, base)];
    }
    BasePassed(deps, reach, base, waiting, queued);
  }

  lemma SameUnreached(all: set<nat>, allocs: set<nat>, reach: map<nat, set<nat>>, u: nat)
    ensures Unreached(all, allocs, reach[u := Sets(reach, u)]) == Unreached(all, allocs, reach)
  {
  }

  lemma BoundedOf(f: Func, fa: Facts, deps: map<nat, seq<nat>>, allocs: set<nat>, all: set<nat>, reach: map<nat, set<nat>>, base: nat, u: nat)
    requires WorkInv(f, fa, deps, allocs, all, reach) && u in Get(deps, base)
    ensures u in all && Sets(reach, base) <= allocs
  {
  }

  lemma PassedMore(deps: map<nat, seq<nat>>, reach: map<nat, set<nat>>, waiting: seq<nat>, base: nat, u: nat)
    requires PassedOn(deps, reach, waiting)
    ensures PassedOn(deps, reach[u := Sets(reach, u) + Sets(reach, base)], waiting + [u])
    ensures Sets(reach, base) <= Sets(reach, u) ==> PassedOn(deps, reach[u := Sets(reach, u) + Sets(reach, base)], waiting)
  {
    var more := reach[u := Sets(reach, u) + Sets(reach, base)];
    forall t, v | t !in waiting + [u] && v in Get(deps, t)
      ensures Sets(more, t) <= Sets(more, v)
    {
      assert t !in waiting && t != u;
      assert Sets(reach, t) <= Sets(reach, v);
    }
    if Sets(reach, base) <= Sets(reach, u) {
      forall t, v | t !in waiting && v in Get(deps, t)
        ensures Sets(more, t) <= Sets(more, v)
      {
        assert Sets(reach, t) <= Sets(reach, v);
      }
    }
  }

  lemma BasePassed(deps: map<nat, seq<nat>>, reach: map<nat, set<nat>>, base: nat, waiting: seq<nat>, queued: seq<nat>)
    requires PassedOn(deps, reach, [base] + waiting + queued)
    requires forall i :: 0 <= i < |Get(deps, base)| ==> Sets(reach, base) <= Sets(reach, Get(deps, base)[i])
    ensures PassedOn(deps, reach, waiting + queued)
  {
    forall t, u | t !in waiting + queued && u in Get(deps, t)
      ensures Sets(reach, t) <= Sets(reach, u)
    {
      if t != base {
        assert t !in [base] + waiting + queued;
      }
    }
  }

  /** With nothing waiting, every chain has been followed. */
  lemma {:induction false} ChainFollowed(f: Func, fa: Facts, deps: map<nat, seq<nat>>, allocs: set<nat>, all: set<nat>, reach: map<nat, set<nat>>,
                                         c: seq<nat>, a: nat, t: nat)
    requires WorkInv(f, fa, deps, allocs, all, reach) && PassedOn(deps, reach, []) && Chain(f, fa, c, a, t) && a in allocs
    ensures a in Sets(reach, t)
    decreases |c|
  {
    hide Carries, Justified, Bounded, Tracked;
    if |c| > 1 {
      var d := c[..|c| - 1];
      var u := d[|d| - 1];
      forall i, j | 0 <= i && j == i + 1 && j < |d|
        ensures Carries(f, fa, d[i], d[j])
      {
        assert Carries(f, fa, c[i], c[j]);
      }
      ChainFollowed(f, fa, deps, allocs, all, reach, d, a, u);
      var i, j := |c| - 2, |c| - 1;
      assert Carries(f, fa, c[i], c[j]);
      assert Dep(deps, u, t);
      assert Sets(reach, u) <= Sets(reach, t);
    }
  }

  /** Exactly the allocations a chain of derivations connects to each temporary. */
  ghost predicate SourcesExact(f: Func, fa: Facts, src: map<nat, set<nat>>) {
    forall t: nat, a: nat :: a in Sets(src, t) <==> Tracked(f, fa, a) && Derived(f, fa, a, t)
  }

  method PointerAllocationSources(f: Func, fa: Facts) returns (reach: map<nat, set<nat>>)
    ensures SourcesExact(f, fa, reach)
  {
    hide WorkInv, PassedOn, Tracked, Carries, Derived;
    var deps, allocs := Collect(f, fa);
    reach := map a | a in allocs :: {a};
    ghost var all := allocs + set t, u | t in deps && u in deps[t] :: u;
    var pending := Listed(allocs);
    StartWork(f, fa, deps, allocs, all, reach, pending);
    while |pending| > 0
      invariant WorkInv(f, fa, deps, allocs, all, reach) && PassedOn(deps, reach, pending)
      decreases Unreached(all, allocs, reach), |pending|
    {
      var base, rest := pending[0], pending[1..];
      assert pending == [base] + rest;
      var queued;
      reach, queued := PassOn(f, fa, deps, allocs, all, reach, base, rest);
      pending := rest + queued;
    }
    forall t: nat, a: nat
      ensures a in Sets(reach, t) <==> Tracked(f, fa, a) && Derived(f, fa, a, t)
    {
      Followed(f, fa, deps, allocs, all, reach, t, a);
    }
  }

  method Listed(s: set<nat>) returns (r: seq<nat>)
    ensures forall x :: x in r <==> x in s
  {
    r := [];
    var rest := s;
    while rest != {}
      invariant rest <= s && forall x :: x in r <==> x in s - rest
      decreases rest
    {
      var x :| x in rest;
      r, rest := r + [x], rest - {x};
    }
  }

  lemma StartWork(f: Func, fa: Facts, deps: map<nat, seq<nat>>, allocs: set<nat>, all: set<nat>, reach: map<nat, set<nat>>, pending: seq<nat>)
    requires (forall x: nat, y: nat :: Dep(deps, x, y) <==> Carries(f, fa, x, y)) && (forall a :: a in allocs <==> Tracked(f, fa, a))
    requires reach == (map a | a in allocs :: {a}) && (forall x :: x in pending <==> x in allocs)
    requires all == allocs + set t, u | t in deps && u in deps[t] :: u
    ensures WorkInv(f, fa, deps, allocs, all, reach) && PassedOn(deps, reach, pending)
  {
    hide Carries, Tracked, Derived;
    forall t | t in reach
      ensures Derived(f, fa, t, t)
    {
      DerivedSelf(f, fa, t);
    }
  }

  lemma Followed(f: Func, fa: Facts, deps: map<nat, seq<nat>>, allocs: set<nat>, all: set<nat>, reach: map<nat, set<nat>>, t: nat, a: nat)
    requires WorkInv(f, fa, deps, allocs, all, reach) && PassedOn(deps, reach, [])
    ensures a in Sets(reach, t) <==> Tracked(f, fa, a) && Derived(f, fa, a, t)
  {
    hide Carries, Tracked;
    if Tracked(f, fa, a) && Derived(f, fa, a, t) {
      var c :| Chain(f, fa, c, a, t);
      ChainFollowed(f, fa, deps, allocs, all, reach, c, a, t);
    }
  }
}
