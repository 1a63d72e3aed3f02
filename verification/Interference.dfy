/** The interference graph of the graph-colouring allocator (amd64/gcalloc.go):
    which temporaries may not share a register, and which registers each may not
    use. */
module Interference {
  import opened Graphs
  import opened Ir
  import opened Liveness

  /** A temporary's register class, its pinned register if the calling convention
      or an instruction fixes one, and whether it is a managed reference. */
  datatype TempInfo = TempInfo(float: bool, fixed: Option<nat>, gcRef: bool)

  // ----- what the walk should find -----

  /** The destination and source of a register-to-register move. */
  function MoveEnds(in_: Instr): (ends: Option<(nat, nat)>)
    ensures ends.Some? ==> in_.to == Temp(ends.value.0) && in_.args == [Temp(ends.value.1)]
  {
    if (in_.op.Copy? || in_.op.Par? || in_.op.Arg?) && in_.to.Temp? && |in_.args| == 1 && in_.args[0].Temp?
    then Some((in_.to.id, in_.args[0].id))
    else None
  }

  /** The walk's live set before instruction k. Unlike liveness proper, the walk counts
      a lifetime marker's operand as used. */
  function RawFrom(ins: seq<Instr>, k: nat, end: set<nat>): set<nat>
    requires k <= |ins|
    decreases |ins| - k
  {
    if k == |ins| then end else RawFrom(ins, k + 1, end) - Set(DefSeq(ins[k])) + Set(UseSeq(ins[k]))
  }

  function End(b: Block, out: set<nat>): set<nat> {
    out + Set(TermUses(b))
  }

  /** Live after the instruction, a move's source set aside. */
  function Across(in_: Instr, after: set<nat>): set<nat> {
    if MoveEnds(in_).Some? then after - {MoveEnds(in_).value.1} else after
  }

  ghost predicate PairOf(p: (nat, nat), d: nat, s: set<nat>) {
    p.0 != p.1 && ((p.0 == d && p.1 in s) || (p.1 == d && p.0 in s))
  }

  /** The instruction writes one of the pair while the other is live after it or
      written by it too; an inline-assembly result also clashes with its inputs. */
  ghost predicate ClashAt(in_: Instr, after: set<nat>, p: (nat, nat)) {
    exists d :: d in DefSeq(in_) && PairOf(p, d, ClashSet(in_, after))
  }

  function ClashSet(in_: Instr, after: set<nat>): set<nat> {
    Across(in_, after) + Set(DefSeq(in_)) + (if in_.op.Asm? then Set(UseSeq(in_)) else {})
  }

  /** The instruction writes one of the pair while the other is live after it or written
      by it too: both are wanted at once. */
  ghost predicate BesideAt(in_: Instr, after: set<nat>, p: (nat, nat)) {
    exists d :: d in DefSeq(in_) && PairOf(p, d, Across(in_, after) + Set(DefSeq(in_)))
  }

  /** An inline assembly clobbers r while t is live across it, read or written by it. */
  ghost predicate ClobberAt(in_: Instr, after: set<nat>, p: (nat, nat)) {
    in_.op.Asm? && p.1 in in_.op.clobbers && (p.0 in Across(in_, after) || p.0 in UseSeq(in_) || p.0 in DefSeq(in_))
  }

  /** A managed reference is live across a call or a safepoint. */
  ghost predicate HeldAt(in_: Instr, after: set<nat>, t: nat) {
    (in_.op.Call? || in_.op.Safepoint?) && t in Across(in_, after)
  }

  ghost predicate HeldIndex(ins: seq<Instr>, end: set<nat>, i: int, t: nat) {
    0 <= i < |ins| && HeldAt(ins[i], RawFrom(ins, i + 1, end), t)
  }

  ghost predicate HeldFrom(ins: seq<Instr>, end: set<nat>, k: int, t: nat) {
    exists i :: k <= i && HeldIndex(ins, end, i, t)
  }

  lemma HeldStep(ins: seq<Instr>, end: set<nat>, k: nat, t: nat)
    requires k < |ins|
    ensures HeldFrom(ins, end, k, t) <==> HeldFrom(ins, end, k + 1, t) || HeldAt(ins[k], RawFrom(ins, k + 1, end), t)
  {
    hide HeldAt, RawFrom;
    if HeldAt(ins[k], RawFrom(ins, k + 1, end), t) {
      assert HeldIndex(ins, end, k, t);
    }
  }

  ghost predicate BlockHeld(b: Block, out: set<nat>, t: nat) {
    HeldFrom(b.instrs, End(b, out), 0, t)
  }

  ghost predicate Held(f: Func, rpo: seq<nat>, outs: seq<set<nat>>, t: nat) {
    exists i :: 0 <= i < |rpo| && rpo[i] < |f.blocks| && rpo[i] < |outs| && BlockHeld(f.blocks[rpo[i]], outs[rpo[i]], t)
  }

  ghost predicate ClashIndex(ins: seq<Instr>, end: set<nat>, i: int, p: (nat, nat)) {
    0 <= i < |ins| && ClashAt(ins[i], RawFrom(ins, i + 1, end), p)
  }

  ghost predicate ClashFrom(ins: seq<Instr>, end: set<nat>, k: int, p: (nat, nat)) {
    exists i :: k <= i && ClashIndex(ins, end, i, p)
  }

  lemma ClashStep(ins: seq<Instr>, end: set<nat>, k: nat, p: (nat, nat))
    requires k < |ins|
    ensures ClashFrom(ins, end, k, p) <==> ClashFrom(ins, end, k + 1, p) || ClashAt(ins[k], RawFrom(ins, k + 1, end), p)
  {
    hide ClashAt, RawFrom;
    if ClashAt(ins[k], RawFrom(ins, k + 1, end), p) {
      assert ClashIndex(ins, end, k, p);
    }
  }

  ghost predicate BlockClash(b: Block, out: set<nat>, p: (nat, nat)) {
    ClashFrom(b.instrs, End(b, out), 0, p)
  }

  ghost predicate ClobberIndex(ins: seq<Instr>, end: set<nat>, i: int, p: (nat, nat)) {
    0 <= i < |ins| && ClobberAt(ins[i], RawFrom(ins, i + 1, end), p)
  }

  ghost predicate ClobberFrom(ins: seq<Instr>, end: set<nat>, k: int, p: (nat, nat)) {
    exists i :: k <= i && ClobberIndex(ins, end, i, p)
  }

  lemma ClobberStep(ins: seq<Instr>, end: set<nat>, k: nat, p: (nat, nat))
    requires k < |ins|
    ensures ClobberFrom(ins, end, k, p) <==> ClobberFrom(ins, end, k + 1, p) || ClobberAt(ins[k], RawFrom(ins, k + 1, end), p)
  {
    hide ClobberAt, RawFrom;
    if ClobberAt(ins[k], RawFrom(ins, k + 1, end), p) {
      assert ClobberIndex(ins, end, k, p);
    }
  }

  ghost predicate BlockClobber(b: Block, out: set<nat>, p: (nat, nat)) {
    ClobberFrom(b.instrs, End(b, out), 0, p)
  }

  ghost predicate Clash(f: Func, rpo: seq<nat>, outs: seq<set<nat>>, p: (nat, nat)) {
    exists i :: 0 <= i < |rpo| && rpo[i] < |f.blocks| && rpo[i] < |outs| && BlockClash(f.blocks[rpo[i]], outs[rpo[i]], p)
  }

  ghost predicate Clobber(f: Func, rpo: seq<nat>, outs: seq<set<nat>>, p: (nat, nat)) {
    exists i :: 0 <= i < |rpo| && rpo[i] < |f.blocks| && rpo[i] < |outs| && BlockClobber(f.blocks[rpo[i]], outs[rpo[i]], p)
  }

  ghost predicate InstrBelow(in_: Instr, n: nat) {
    (forall t :: t in DefSeq(in_) ==> t < n) && (forall t :: t in UseSeq(in_) ==> t < n)
  }

  ghost predicate BlockBelow(b: Block, n: nat) {
    (forall k :: 0 <= k < |b.instrs| ==> InstrBelow(b.instrs[k], n)) && (forall t :: t in TermUses(b) ==> t < n)
  }

  lemma RawStep(ins: seq<Instr>, k: nat, end: set<nat>)
    requires k < |ins|
    ensures RawFrom(ins, k, end) == RawFrom(ins, k + 1, end) - Set(DefSeq(ins[k])) + Set(UseSeq(ins[k]))
    ensures RawFrom(ins, |ins|, end) == end
  {
  }

  lemma NothingFrom(ins: seq<Instr>, end: set<nat>)
    ensures RawFrom(ins, |ins|, end) == end
    ensures forall p :: !ClashFrom(ins, end, |ins|, p) && !ClobberFrom(ins, end, |ins|, p)
    ensures forall t :: !HeldFrom(ins, end, |ins|, t)
  {
  }

  lemma {:induction false} RawBelow(ins: seq<Instr>, k: nat, end: set<nat>, n: nat)
    requires k <= |ins| && end <= Upto(n) && forall i :: 0 <= i < |ins| ==> InstrBelow(ins[i], n)
    ensures RawFrom(ins, k, end) <= Upto(n)
    decreases |ins| - k
  {
    hide InstrBelow;
    if k < |ins| {
      RawBelow(ins, k + 1, end, n);
      StepBelow(ins[k], RawFrom(ins, k + 1, end), n);
    }
  }

  lemma StepBelow(in_: Instr, live: set<nat>, n: nat)
    requires live <= Upto(n) && InstrBelow(in_, n)
    ensures live - Set(DefSeq(in_)) + Set(UseSeq(in_)) <= Upto(n)
  {
    hide DefSeq, UseSeq;
  }

  /** The walk's sets, with the move's source set aside and the results added. */
  lemma VisitSets(in_: Instr, after: set<nat>, n: nat)
    requires InstrBelow(in_, n) && after <= Upto(n)
    ensures Across(in_, after) <= Upto(n) && Set(DefSeq(in_)) <= Upto(n) && Set(UseSeq(in_)) <= Upto(n)
    ensures ClashSet(in_, after) == Across(in_, after) + Set(DefSeq(in_)) + (if in_.op.Asm? then Set(UseSeq(in_)) else {})
  {
    hide DefSeq, UseSeq;
  }

  lemma VisitMeans(in_: Instr, after: set<nat>)
    ensures forall p :: ClashAt(in_, after, p) <==> exists d :: d in DefSeq(in_) && PairOf(p, d, ClashSet(in_, after))
    ensures forall p :: ClobberAt(in_, after, p) <==>
              in_.op.Asm? && p.1 in in_.op.clobbers && p.0 in Across(in_, after) + Set(UseSeq(in_)) + Set(DefSeq(in_))
    ensures forall t :: HeldAt(in_, after, t) <==> (in_.op.Call? || in_.op.Safepoint?) && t in Across(in_, after)
  {
    hide PairOf, DefSeq, UseSeq;
  }

  // ----- on the fields -----

  /** Only copies, parameters and arguments from one temporary to another are moves. */
  lemma MovesAre(in_: Instr, d: nat, s: nat)
    ensures MoveEnds(in_) == Some((d, s)) <==> (in_.op.Copy? || in_.op.Par? || in_.op.Arg?) && in_.to == Temp(d) && in_.args == [Temp(s)]
  {
    if |in_.args| == 1 {
      assert in_.args == [in_.args[0]];
    }
  }

  /** Live after an instruction, but for the source of a move. */
  lemma AcrossIs(in_: Instr, after: set<nat>, t: nat)
    ensures t in Across(in_, after) <==>
            t in after && !((in_.op.Copy? || in_.op.Par? || in_.op.Arg?) && in_.to.Temp? && in_.args == [Temp(t)])
  {
    if MoveEnds(in_).Some? {
      MovesAre(in_, MoveEnds(in_).value.0, MoveEnds(in_).value.1);
    } else if in_.to.Temp? {
      MovesAre(in_, in_.to.id, t);
    }
  }

  /** Two temporaries clash at an instruction exactly when they differ, it writes one, and
      it writes the other too, or the other is live after it and is not what it moves, or
      it is an inline assembly that reads the other. */
  lemma ClashIs(in_: Instr, after: set<nat>, p: (nat, nat))
    ensures ClashAt(in_, after, p) <==>
            (p.0 != p.1 &&
             exists d, x :: (p == (d, x) || p == (x, d)) && (in_.to == Temp(d) || Temp(d) in in_.defs) &&
               (|| in_.to == Temp(x) || Temp(x) in in_.defs
                || (x in after && !((in_.op.Copy? || in_.op.Par? || in_.op.Arg?) && in_.to.Temp? && in_.args == [Temp(x)]))
                || (in_.op.Asm? && (Temp(x) in in_.args || in_.context == Temp(x)))))
  {
    hide Across, DefSeq, UseSeq;
    forall t
      ensures t in DefSeq(in_) <==> in_.to == Temp(t) || Temp(t) in in_.defs
      ensures t in UseSeq(in_) <==> Temp(t) in in_.args || in_.context == Temp(t)
      ensures t in Across(in_, after) <==>
              t in after && !((in_.op.Copy? || in_.op.Par? || in_.op.Arg?) && in_.to.Temp? && in_.args == [Temp(t)])
    {
      ReadsAndWrites(in_, t);
      AcrossIs(in_, after, t);
    }
    forall d | d in DefSeq(in_) && PairOf(p, d, ClashSet(in_, after))
      ensures p == (d, if p.0 == d && p.1 in ClashSet(in_, after) then p.1 else p.0) || p == (if p.0 == d && p.1 in ClashSet(in_, after) then p.1 else p.0, d)
    {
      assert p == (p.0, p.1);
    }
    forall d, x | p.0 != p.1 && (p == (d, x) || p == (x, d)) && d in DefSeq(in_) && x in ClashSet(in_, after)
      ensures PairOf(p, d, ClashSet(in_, after))
    {
    }
  }

  /** A register an inline assembly writes is kept from what is live across it, and from
      what it reads and writes. */
  lemma ClobberIs(in_: Instr, after: set<nat>, t: nat, r: nat)
    ensures ClobberAt(in_, after, (t, r)) <==>
            in_.op.Asm? && r in in_.op.clobbers &&
            (t in after || Temp(t) in in_.args || in_.context == Temp(t) || in_.to == Temp(t) || Temp(t) in in_.defs)
  {
    ReadsAndWrites(in_, t);
    AcrossIs(in_, after, t);
  }

  lemma HeldIs(in_: Instr, after: set<nat>, t: nat)
    ensures HeldAt(in_, after, t) <==> (in_.op.Call? || in_.op.Safepoint?) && t in after
  {
    AcrossIs(in_, after, t);
  }

  ghost predicate NoneWrites(ins: seq<Instr>, k: nat, i: nat, t: nat) {
    i <= |ins| && forall l :: k <= l < i ==> ins[l].to != Temp(t) && Temp(t) !in ins[l].defs
  }

  ghost predicate ReadAt(ins: seq<Instr>, i: nat, t: nat) {
    i < |ins| && (Temp(t) in ins[i].args || ins[i].context == Temp(t))
  }

  ghost predicate ReadAhead(ins: seq<Instr>, k: nat, t: nat) {
    exists i :: k <= i && ReadAt(ins, i, t) && NoneWrites(ins, k, i, t)
  }

  lemma AheadStep(ins: seq<Instr>, k: nat, t: nat)
    requires k < |ins|
    ensures ReadAhead(ins, k, t) <==> ReadAt(ins, k, t) || (ins[k].to != Temp(t) && Temp(t) !in ins[k].defs && ReadAhead(ins, k + 1, t))
    ensures NoneWrites(ins, k, |ins|, t) <==> ins[k].to != Temp(t) && Temp(t) !in ins[k].defs && NoneWrites(ins, k + 1, |ins|, t)
  {
    hide ReadAt;
    assert NoneWrites(ins, k, k, t);
    if i: nat :| k <= i && ReadAt(ins, i, t) && NoneWrites(ins, k, i, t) {
      ReadInside(ins, i, t);
      assert i > k ==> NoneWrites(ins, k + 1, i, t);
    }
    if i: nat :| k + 1 <= i && ReadAt(ins, i, t) && NoneWrites(ins, k + 1, i, t) {
      assert ins[k].to != Temp(t) && Temp(t) !in ins[k].defs ==> NoneWrites(ins, k, i, t);
    }
  }

  lemma ReadInside(ins: seq<Instr>, i: nat, t: nat)
    requires ReadAt(ins, i, t)
    ensures i < |ins|
  {
  }

  lemma {:induction false} RawVia(ins: seq<Instr>, k: nat, end: set<nat>, t: nat)
    requires k <= |ins|
    ensures t in RawFrom(ins, k, end) <==> ReadAhead(ins, k, t) || (t in end && NoneWrites(ins, k, |ins|, t))
    decreases |ins| - k
  {
    hide RawFrom, DefSeq, UseSeq, ReadAt, ReadAhead, NoneWrites;
    if k < |ins| {
      RawStep(ins, k, end);
      ReadsAndWrites(ins[k], t);
      ReadAtIs(ins, k, t);
      AheadStep(ins, k, t);
      RawVia(ins, k + 1, end, t);
    } else {
      NothingAhead(ins, end, t);
    }
  }

  lemma NothingAhead(ins: seq<Instr>, end: set<nat>, t: nat)
    ensures RawFrom(ins, |ins|, end) == end && !ReadAhead(ins, |ins|, t) && NoneWrites(ins, |ins|, |ins|, t)
  {
  }

  lemma ReadAtIs(ins: seq<Instr>, i: nat, t: nat)
    requires i < |ins|
    ensures ReadAt(ins, i, t) <==> t in UseSeq(ins[i])
  {
    ReadsAndWrites(ins[i], t);
  }

  /** The walk's live set, lifetime markers counting as reads: t is in it when an
      instruction from k on reads it before any writes it, or none does and it is in the
      end set. */
  lemma RawIs(ins: seq<Instr>, k: nat, end: set<nat>, t: nat)
    requires k <= |ins|
    ensures t in RawFrom(ins, k, end) <==>
            ((exists i :: k <= i < |ins| && (Temp(t) in ins[i].args || ins[i].context == Temp(t)) &&
                          forall l :: k <= l < i ==> ins[l].to != Temp(t) && Temp(t) !in ins[l].defs)
             || (t in end && forall l :: k <= l < |ins| ==> ins[l].to != Temp(t) && Temp(t) !in ins[l].defs))
  {
    hide RawFrom;
    RawVia(ins, k, end, t);
    forall i: nat | k <= i < |ins|
      ensures ReadAt(ins, i, t) && NoneWrites(ins, k, i, t) <==>
              (Temp(t) in ins[i].args || ins[i].context == Temp(t)) && forall l :: k <= l < i ==> ins[l].to != Temp(t) && Temp(t) !in ins[l].defs
    {
    }
  }

  /** The finished graph's clashes and clobbers, instruction by instruction. */
  lemma ClashesAre(f: Func, rpo: seq<nat>, outs: seq<set<nat>>, p: (nat, nat))
    ensures Clash(f, rpo, outs, p) <==>
            exists i, k :: 0 <= i < |rpo| && rpo[i] < |f.blocks| && rpo[i] < |outs| && 0 <= k < |f.blocks[rpo[i]].instrs| &&
                           ClashAt(f.blocks[rpo[i]].instrs[k], RawFrom(f.blocks[rpo[i]].instrs, k + 1, outs[rpo[i]] + Set(TermUses(f.blocks[rpo[i]]))), p)
  {
    hide ClashAt, RawFrom;
    forall i, k | 0 <= i < |rpo| && rpo[i] < |f.blocks| && rpo[i] < |outs| && 0 <= k < |f.blocks[rpo[i]].instrs| &&
                  ClashAt(f.blocks[rpo[i]].instrs[k], RawFrom(f.blocks[rpo[i]].instrs, k + 1, outs[rpo[i]] + Set(TermUses(f.blocks[rpo[i]]))), p)
      ensures Clash(f, rpo, outs, p)
    {
      assert ClashIndex(f.blocks[rpo[i]].instrs, End(f.blocks[rpo[i]], outs[rpo[i]]), k, p);
      assert BlockClash(f.blocks[rpo[i]], outs[rpo[i]], p);
    }
    if Clash(f, rpo, outs, p) {
      var i :| 0 <= i < |rpo| && rpo[i] < |f.blocks| && rpo[i] < |outs| && BlockClash(f.blocks[rpo[i]], outs[rpo[i]], p);
      var k :| 0 <= k && ClashIndex(f.blocks[rpo[i]].instrs, End(f.blocks[rpo[i]], outs[rpo[i]]), k, p);
      assert ClashAt(f.blocks[rpo[i]].instrs[k], RawFrom(f.blocks[rpo[i]].instrs, k + 1, outs[rpo[i]] + Set(TermUses(f.blocks[rpo[i]]))), p);
    }
  }

  lemma ClobbersAre(f: Func, rpo: seq<nat>, outs: seq<set<nat>>, p: (nat, nat))
    ensures Clobber(f, rpo, outs, p) <==>
            exists i, k :: 0 <= i < |rpo| && rpo[i] < |f.blocks| && rpo[i] < |outs| && 0 <= k < |f.blocks[rpo[i]].instrs| &&
                           ClobberAt(f.blocks[rpo[i]].instrs[k], RawFrom(f.blocks[rpo[i]].instrs, k + 1, outs[rpo[i]] + Set(TermUses(f.blocks[rpo[i]]))), p)
  {
    hide ClobberAt, RawFrom;
    forall i, k | 0 <= i < |rpo| && rpo[i] < |f.blocks| && rpo[i] < |outs| && 0 <= k < |f.blocks[rpo[i]].instrs| &&
                  ClobberAt(f.blocks[rpo[i]].instrs[k], RawFrom(f.blocks[rpo[i]].instrs, k + 1, outs[rpo[i]] + Set(TermUses(f.blocks[rpo[i]]))), p)
      ensures Clobber(f, rpo, outs, p)
    {
      assert ClobberIndex(f.blocks[rpo[i]].instrs, End(f.blocks[rpo[i]], outs[rpo[i]]), k, p);
      assert BlockClobber(f.blocks[rpo[i]], outs[rpo[i]], p);
    }
    if Clobber(f, rpo, outs, p) {
      var i :| 0 <= i < |rpo| && rpo[i] < |f.blocks| && rpo[i] < |outs| && BlockClobber(f.blocks[rpo[i]], outs[rpo[i]], p);
      var k :| 0 <= k && ClobberIndex(f.blocks[rpo[i]].instrs, End(f.blocks[rpo[i]], outs[rpo[i]]), k, p);
      assert ClobberAt(f.blocks[rpo[i]].instrs[k], RawFrom(f.blocks[rpo[i]].instrs, k + 1, outs[rpo[i]] + Set(TermUses(f.blocks[rpo[i]]))), p);
    }
  }

  // ----- the graph -----

  class ColorGraph {
    const temps: seq<TempInfo>
    var adj: seq<set<nat>>
    var forb: seq<set<nat>>

    /** The clashes and clobbers reported so far. */
    ghost var clash: set<(nat, nat)>
    ghost var clob: set<(nat, nat)>

    /** Managed references that must live in a stack slot. */
    var gc: set<nat>

    ghost predicate Node(t: nat) {
      t < |temps| && temps[t].fixed.None?
    }

    ghost predicate SameClass(a: nat, b: nat) {
      a < |temps| && b < |temps| && temps[a].float == temps[b].float
    }

    /** a may not use r because it clashes with b, which is pinned to r. */
    ghost predicate Pinned(a: nat, r: nat, b: nat) {
      Node(a) && SameClass(a, b) && temps[b].fixed == Some(r)
    }

    ghost predicate Forbidden(cs: set<(nat, nat)>, cl: set<(nat, nat)>, t: nat, r: nat) {
      (t, r) in cl || exists b :: (t, b) in cs && Pinned(t, r, b)
    }

    ghost predicate PairsOk(cs: set<(nat, nat)>) {
      forall p :: p in cs ==> p.0 < |temps| && p.1 < |temps| && p.0 != p.1 && (p.1, p.0) in cs
    }

    ghost predicate AdjOk(ad: seq<set<nat>>, cs: set<(nat, nat)>) {
      && |ad| == |temps|
      && forall a: nat, b: nat :: a < |temps| ==> (b in ad[a] <==> (a, b) in cs && Node(a) && Node(b) && SameClass(a, b))
    }

    ghost predicate ForbOk(fb: seq<set<nat>>, cs: set<(nat, nat)>, cl: set<(nat, nat)>) {
      && |fb| == |temps|
      && forall t: nat, r: nat :: t < |temps| ==> (r in fb[t] <==> Forbidden(cs, cl, t, r))
    }

    ghost predicate Valid() reads this {
      PairsOk(clash) && AdjOk(adj, clash) && ForbOk(forb, clash, clob)
    }

    lemma ForbiddenByPair(cs: set<(nat, nat)>, cl: set<(nat, nat)>, a: nat, b: nat, t: nat, r: nat)
      ensures Forbidden(cs + {(a, b), (b, a)}, cl, t, r) <==>
              Forbidden(cs, cl, t, r) || (t == a && Pinned(a, r, b)) || (t == b && Pinned(b, r, a))
    {
      var cs' := cs + {(a, b), (b, a)};
      if t == a && Pinned(a, r, b) {
        assert (t, b) in cs';
      }
      if t == b && Pinned(b, r, a) {
        assert (t, a) in cs';
      }
      if x :| (t, x) in cs && Pinned(t, r, x) {
        assert (t, x) in cs';
      }
    }

    lemma ForbiddenByClobber(cs: set<(nat, nat)>, cl: set<(nat, nat)>, t0: nat, r0: nat, t: nat, r: nat)
      ensures Forbidden(cs, cl + {(t0, r0)}, t, r) <==> Forbidden(cs, cl, t, r) || (t == t0 && r == r0)
    {
    }

    constructor (temps: seq<TempInfo>)
      ensures this.temps == temps && Valid() && clash == {} && clob == {} && gc == {}
    {
      this.temps := temps;
      adj := seq(|temps|, _ => {});
      forb := seq(|temps|, _ => {});
      clash, clob, gc := {}, {}, {};
    }

    method Forbid(t: nat, r: nat)
      requires Valid() && t < |temps|
      modifies this
      ensures Valid() && clash == old(clash) && clob == old(clob) + {(t, r)} && gc == old(gc)
    {
      hide Forbidden;
      forall x: nat, y: nat
        ensures Forbidden(clash, clob + {(t, r)}, x, y) <==> Forbidden(clash, clob, x, y) || (x == t && y == r)
      {
        ForbiddenByClobber(clash, clob, t, r, x, y);
      }
      forb := forb[t := forb[t] + {r}];
      clob := clob + {(t, r)};
    }

    lemma ForbKept(fb: seq<set<nat>>, cs: set<(nat, nat)>, cl: set<(nat, nat)>, a: nat, b: nat)
      requires ForbOk(fb, cs, cl) && a < |temps| && b < |temps|
      requires !SameClass(a, b) || temps[a].fixed.Some? == temps[b].fixed.Some?
      ensures ForbOk(fb, cs + {(a, b), (b, a)}, cl)
    {
      forall t: nat, r: nat | t < |temps|
        ensures r in fb[t] <==> Forbidden(cs + {(a, b), (b, a)}, cl, t, r)
      {
        ForbiddenByPair(cs, cl, a, b, t, r);
      }
    }

    lemma ForbGrows(fb: seq<set<nat>>, cs: set<(nat, nat)>, cl: set<(nat, nat)>, a: nat, b: nat)
      requires ForbOk(fb, cs, cl) && Node(a) && SameClass(a, b) && temps[b].fixed.Some?
      ensures ForbOk(fb[a := fb[a] + {temps[b].fixed.value}], cs + {(a, b), (b, a)}, cl)
    {
      var fb' := fb[a := fb[a] + {temps[b].fixed.value}];
      forall t: nat, r: nat | t < |temps|
        ensures r in fb'[t] <==> Forbidden(cs + {(a, b), (b, a)}, cl, t, r)
      {
        ForbiddenByPair(cs, cl, a, b, t, r);
      }
    }

    lemma AdjKept(ad: seq<set<nat>>, cs: set<(nat, nat)>, a: nat, b: nat)
      requires AdjOk(ad, cs) && !(Node(a) && Node(b) && SameClass(a, b))
      ensures AdjOk(ad, cs + {(a, b), (b, a)})
    {
    }

    lemma AdjGrows(ad: seq<set<nat>>, cs: set<(nat, nat)>, a: nat, b: nat)
      requires AdjOk(ad, cs) && Node(a) && Node(b) && SameClass(a, b) && a != b
      ensures AdjOk(ad[a := ad[a] + {b}][b := ad[b] + {a}], cs + {(a, b), (b, a)})
    {
    }

    /** Records that a and b clash: an edge between two colourable temporaries of one
        class, a forbidden register beside a pinned one, nothing otherwise. */
    method AddEdge(a: nat, b: nat)
      requires Valid() && a < |temps| && b < |temps|
      modifies this
      ensures Valid() && clob == old(clob) && gc == old(gc)
      ensures clash == old(clash) + (if a == b then {} else {(a, b), (b, a)})
    {
      if a == b {
        return;
      }
      assert |adj| == |temps| == |forb|;
      ghost var cs := clash;
      clash := clash + {(a, b), (b, a)};
      if temps[a].float != temps[b].float || (temps[a].fixed.Some? && temps[b].fixed.Some?) {
        AdjKept(adj, cs, a, b);
        ForbKept(forb, cs, clob, a, b);
        return;
      }
      if temps[a].fixed.Some? {
        AdjKept(adj, cs, a, b);
        ForbGrows(forb, cs, clob, b, a);
        assert {(b, a), (a, b)} == {(a, b), (b, a)};
        forb := forb[b := forb[b] + {temps[a].fixed.value}];
      } else if temps[b].fixed.Some? {
        AdjKept(adj, cs, a, b);
        ForbGrows(forb, cs, clob, a, b);
        forb := forb[a := forb[a] + {temps[b].fixed.value}];
      } else {
        AdjGrows(adj, cs, a, b);
        ForbKept(forb, cs, clob, a, b);
        adj := adj[a := adj[a] + {b}];
        adj := adj[b := adj[b] + {a}];
      }
    }
  
    /** A definition against everything live beside it. */
    method Interfere(d: nat, s: set<nat>)
      requires Valid() && d < |temps| && s <= Upto(|temps|)
      modifies this
      ensures Valid() && clob == old(clob) && gc == old(gc)
      ensures forall p :: p in clash <==> p in old(clash) || PairOf(p, d, s)
    {
      hide PairsOk, AdjOk, ForbOk;
      var rest := s;
      while rest != {}
        invariant rest <= s && Valid() && clob == old(clob) && gc == old(gc)
        invariant forall p :: p in clash <==> p in old(clash) || PairOf(p, d, s - rest)
        decreases rest
      {
        var l :| l in rest;
        AddEdge(d, l);
        rest := rest - {l};
      }
    }

    method InterfereAll(ds: seq<nat>, s: set<nat>)
      requires Valid() && (forall d :: d in ds ==> d < |temps|) && s <= Upto(|temps|)
      modifies this
      ensures Valid() && clob == old(clob) && gc == old(gc)
      ensures forall p :: p in clash <==> p in old(clash) || exists d :: d in ds && PairOf(p, d, s)
    {
      hide PairsOk, AdjOk, ForbOk, PairOf;
      for i := 0 to |ds|
        invariant Valid() && clob == old(clob) && gc == old(gc)
        invariant forall p :: p in clash <==> p in old(clash) || exists d :: d in ds[..i] && PairOf(p, d, s)
      {
        assert ds[i] in ds;
        assert ds[..i + 1] == ds[..i] + [ds[i]];
        Interfere(ds[i], s);
      }
      assert ds[..|ds|] == ds;
    }

    /** Keeps the registers an inline assembly writes away from some temporaries. */
    method ForbidAll(s: set<nat>, rs: set<nat>)
      requires Valid() && s <= Upto(|temps|)
      modifies this
      ensures Valid() && clash == old(clash) && gc == old(gc)
      ensures forall p :: p in clob <==> p in old(clob) || (p.0 in s && p.1 in rs)
    {
      hide PairsOk, AdjOk, ForbOk;
      var rest := s;
      while rest != {}
        invariant rest <= s && Valid() && clash == old(clash) && gc == old(gc)
        invariant forall p :: p in clob <==> p in old(clob) || (p.0 in s - rest && p.1 in rs)
        decreases rest
      {
        var t :| t in rest;
        var regs := rs;
        ghost var before := clob;
        while regs != {}
          invariant regs <= rs && Valid() && clash == old(clash) && gc == old(gc)
          invariant forall p :: p in clob <==> p in before || (p.0 == t && p.1 in rs - regs)
          decreases regs
        {
          var r :| r in regs;
          Forbid(t, r);
          regs := regs - {r};
        }
        rest := rest - {t};
      }
    }

    /** One instruction of the backward walk, with the live set after it. */
    method Visit(in_: Instr, after: set<nat>)
      requires Valid() && InstrBelow(in_, |temps|) && after <= Upto(|temps|)
      modifies this
      ensures Valid()
      ensures forall p :: p in clash <==> p in old(clash) || ClashAt(in_, after, p)
      ensures forall p :: p in clob <==> p in old(clob) || ClobberAt(in_, after, p)
      ensures forall t: nat :: t in gc <==> t in old(gc) || (HeldAt(in_, after, t) && t < |temps| && temps[t].gcRef)
    {
      hide PairsOk, AdjOk, ForbOk, PairOf, DefSeq, UseSeq, ClashAt, ClobberAt, HeldAt, Across, ClashSet;
      VisitMeans(in_, after);
      VisitSets(in_, after, |temps|);
      var defs, live := DefSeq(in_), Across(in_, after);
      if in_.op.Asm? {
        ForbidAll(live + Set(UseSeq(in_)) + Set(defs), in_.op.clobbers);
      }
      if in_.op.Call? || in_.op.Safepoint? {
        gc := gc + set t | t in live && temps[t].gcRef;
      }
      live := live + Set(defs);
      if in_.op.Asm? {
        live := live + Set(UseSeq(in_));
      }
      InterfereAll(defs, live);
    }

    /** The backward walk of one block. */
    method BuildBlock(b: Block, out: set<nat>)
      requires Valid() && BlockBelow(b, |temps|) && out <= Upto(|temps|)
      modifies this
      ensures Valid()
      ensures forall p :: p in clash <==> p in old(clash) || BlockClash(b, out, p)
      ensures forall p :: p in clob <==> p in old(clob) || BlockClobber(b, out, p)
      ensures forall t: nat :: t in gc <==> t in old(gc) || (BlockHeld(b, out, t) && t < |temps| && temps[t].gcRef)
    {
      hide PairsOk, AdjOk, ForbOk, ClashAt, ClobberAt, HeldAt, ClashFrom, ClobberFrom, HeldFrom, RawFrom;
      var live := out + Set(TermUses(b));
      ghost var ins, end := b.instrs, live;
      var k := |b.instrs|;
      NothingFrom(ins, end);
      while k > 0
        invariant 0 <= k <= |ins| && Valid() && live == RawFrom(ins, k, end)
        invariant forall p :: p in clash <==> p in old(clash) || ClashFrom(ins, end, k, p)
        invariant forall p :: p in clob <==> p in old(clob) || ClobberFrom(ins, end, k, p)
        invariant forall t: nat :: t in gc <==> t in old(gc) || (HeldFrom(ins, end, k, t) && t < |temps| && temps[t].gcRef)
      {
        k := k - 1;
        RawBelow(ins, k + 1, end, |temps|);
        Visit(b.instrs[k], live);
        forall p
          ensures ClashFrom(ins, end, k, p) <==> ClashFrom(ins, end, k + 1, p) || ClashAt(ins[k], live, p)
          ensures ClobberFrom(ins, end, k, p) <==> ClobberFrom(ins, end, k + 1, p) || ClobberAt(ins[k], live, p)
        {
          ClashStep(ins, end, k, p);
          ClobberStep(ins, end, k, p);
        }
        forall t
          ensures HeldFrom(ins, end, k, t) <==> HeldFrom(ins, end, k + 1, t) || HeldAt(ins[k], live, t)
        {
          HeldStep(ins, end, k, t);
        }
        RawStep(ins, k, end);
        live := live - Set(DefSeq(b.instrs[k])) + Set(UseSeq(b.instrs[k]));
      }
    }

    /** The whole interference graph. */
    method Build(f: Func, rpo: seq<nat>, outs: seq<set<nat>>)
      requires Valid() && clash == {} && clob == {} && gc == {} && |outs| == |f.blocks|
      requires forall i :: 0 <= i < |rpo| ==> rpo[i] < |f.blocks| && BlockBelow(f.blocks[rpo[i]], |temps|) && outs[rpo[i]] <= Upto(|temps|)
      modifies this
      ensures Valid()
      ensures forall p :: p in clash <==> Clash(f, rpo, outs, p)
      ensures forall p :: p in clob <==> Clobber(f, rpo, outs, p)
      ensures forall t: nat :: t in gc <==> Held(f, rpo, outs, t) && t < |temps| && temps[t].gcRef
    {
      hide PairsOk, AdjOk, ForbOk, Clash, Clobber, Held, BlockClash, BlockClobber, BlockHeld, BlockBelow;
      NoBlocks(f, outs);
      for i := 0 to |rpo|
        invariant Valid()
        invariant forall p :: p in clash <==> Clash(f, rpo[..i], outs, p)
        invariant forall p :: p in clob <==> Clobber(f, rpo[..i], outs, p)
        invariant forall t: nat :: t in gc <==> Held(f, rpo[..i], outs, t) && t < |temps| && temps[t].gcRef
      {
        assert rpo[..i + 1] == rpo[..i] + [rpo[i]];
        BuildBlock(f.blocks[rpo[i]], outs[rpo[i]]);
        forall p
          ensures Clash(f, rpo[..i + 1], outs, p) <==> Clash(f, rpo[..i], outs, p) || BlockClash(f.blocks[rpo[i]], outs[rpo[i]], p)
          ensures Clobber(f, rpo[..i + 1], outs, p) <==> Clobber(f, rpo[..i], outs, p) || BlockClobber(f.blocks[rpo[i]], outs[rpo[i]], p)
        {
          ClashOneMore(f, rpo[..i], rpo[i], outs, p);
        }
        forall t
          ensures Held(f, rpo[..i + 1], outs, t) <==> Held(f, rpo[..i], outs, t) || BlockHeld(f.blocks[rpo[i]], outs[rpo[i]], t)
        {
          HeldOneMore(f, rpo[..i], rpo[i], outs, t);
        }
      }
      assert rpo[..|rpo|] == rpo;
    }
  }

  lemma NoBlocks(f: Func, outs: seq<set<nat>>)
    ensures forall p :: !Clash(f, [], outs, p) && !Clobber(f, [], outs, p)
    ensures forall t :: !Held(f, [], outs, t)
  {
  }

  lemma ClashOneMore(f: Func, rpo: seq<nat>, b: nat, outs: seq<set<nat>>, p: (nat, nat))
    requires b < |f.blocks| == |outs|
    ensures Clash(f, rpo + [b], outs, p) <==> Clash(f, rpo, outs, p) || BlockClash(f.blocks[b], outs[b], p)
    ensures Clobber(f, rpo + [b], outs, p) <==> Clobber(f, rpo, outs, p) || BlockClobber(f.blocks[b], outs[b], p)
  {
    hide BlockClash, BlockClobber;
    var all := rpo + [b];
    assert all[|rpo|] == b && forall i :: 0 <= i < |rpo| ==> all[i] == rpo[i];
  }

  lemma HeldOneMore(f: Func, rpo: seq<nat>, b: nat, outs: seq<set<nat>>, t: nat)
    requires b < |f.blocks| == |outs|
    ensures Held(f, rpo + [b], outs, t) <==> Held(f, rpo, outs, t) || BlockHeld(f.blocks[b], outs[b], t)
  {
    hide BlockHeld;
    var all := rpo + [b];
    assert all[|rpo|] == b && forall i :: 0 <= i < |rpo| ==> all[i] == rpo[i];
  }
}
