/** Saving and restoring, around each call, what lives across it in a register the call
    may destroy (amd64/callersave.go). */
module CallerSaves {
  import opened Graphs
  import opened Ir
  import opened Liveness
  import opened Interference

  type Regs = seq<Option<nat>>

  /** t is live across this non-tail call, in a register the callee need not preserve. */
  predicate SavedAt(reg: Regs, preserved: set<nat>, in_: Instr, after: set<nat>, t: nat) {
    && in_.op.Call? && !in_.op.tail && t in after && t !in DefSeq(in_)
    && t < |reg| && reg[t].Some? && reg[t].value !in preserved
  }

  /** A call that is no tail call saves what is live after it, is not among its results,
      and is in a register its callee need not preserve. */
  lemma SavedIs(reg: Regs, preserved: set<nat>, in_: Instr, after: set<nat>, t: nat)
    ensures SavedAt(reg, preserved, in_, after, t) <==>
            (in_.op.Call? && !in_.op.tail && t in after && in_.to != Temp(t) && Temp(t) !in in_.defs &&
             t < |reg| && reg[t].Some? && reg[t].value !in preserved)
  {
    ReadsAndWrites(in_, t);
  }

  /** What a call saves among the first n temporaries, in ascending order. */
  function SaveList(reg: Regs, preserved: set<nat>, in_: Instr, after: set<nat>, n: nat): (ts: seq<nat>)
    ensures forall t: nat :: t in ts <==> t < n && SavedAt(reg, preserved, in_, after, t)
    ensures forall i, j :: 0 <= i < j < |ts| ==> ts[i] < ts[j]
  {
    if n == 0 then []
    else
      var rest := SaveList(reg, preserved, in_, after, n - 1);
      if SavedAt(reg, preserved, in_, after, n - 1) then
        assert forall i :: 0 <= i < |rest| ==> rest[i] in rest;
        rest + [n - 1]
      else rest
  }

  function ListAt(reg: Regs, preserved: set<nat>, ins: seq<Instr>, end: set<nat>, k: nat): (ts: seq<nat>)
    requires k < |ins|
  {
    SaveList(reg, preserved, ins[k], RawFrom(ins, k + 1, end), |reg|)
  }

  function SlotFor(m: map<nat, nat>, t: nat): nat {
    if t in m then m[t] else 0
  }

  function Save(m: map<nat, nat>, t: nat): Instr {
    Instr(Spill(SlotFor(m, t)), Other(0), [], [Temp(t)], Other(0))
  }

  function Restore(m: map<nat, nat>, t: nat): Instr {
    Instr(Reload(SlotFor(m, t)), Temp(t), [], [], Other(0))
  }

  function Saves(m: map<nat, nat>, ts: seq<nat>): (s: seq<Instr>)
    ensures |s| == |ts|
  {
    seq(|ts|, i requires 0 <= i < |ts| => Save(m, ts[i]))
  }

  function Restores(m: map<nat, nat>, ts: seq<nat>): (s: seq<Instr>)
    ensures |s| == |ts|
  {
    seq(|ts|, i requires 0 <= i < |ts| => Restore(m, ts[i]))
  }

  /** The end of the run of outgoing arguments starting at k. */
  function ArgEnd(ins: seq<Instr>, k: nat): (e: nat)
    requires k <= |ins|
    ensures k <= e <= |ins| && (forall i :: k <= i < e ==> ins[i].op.Arg?) && (e < |ins| ==> !ins[e].op.Arg?)
    decreases |ins| - k
  {
    if k < |ins| && ins[k].op.Arg? then ArgEnd(ins, k + 1) else k
  }

  predicate Sequence(in_: Instr) {
    in_.op.Arg? || in_.op.Call?
  }

  /** The block from k on with each call's saves before its arguments and its restores
      after it. */
  function Wrap(reg: Regs, preserved: set<nat>, m: map<nat, nat>, ins: seq<Instr>, end: set<nat>, k: nat): seq<Instr>
    requires k <= |ins|
    decreases |ins| - k
  {
    if k == |ins| then []
    else if !Sequence(ins[k]) then [ins[k]] + Wrap(reg, preserved, m, ins, end, k + 1)
    else
      var e := ArgEnd(ins, k);
      if e == |ins| || !ins[e].op.Call? then ins[k..e] + Wrap(reg, preserved, m, ins, end, e)
      else
        var ts := ListAt(reg, preserved, ins, end, e);
        Saves(m, ts) + ins[k..e + 1] + Restores(m, ts) + Wrap(reg, preserved, m, ins, end, e + 1)
  }

  /** The three ways a block goes on from k. */
  predicate LooseRun(ins: seq<Instr>, k: nat, e: nat) {
    k < |ins| && Sequence(ins[k]) && e == ArgEnd(ins, k) && (e == |ins| || !ins[e].op.Call?)
  }

  predicate CallRun(ins: seq<Instr>, k: nat, e: nat) {
    k < |ins| && Sequence(ins[k]) && e == ArgEnd(ins, k) && e < |ins| && ins[e].op.Call?
  }

  lemma WrapPlain(reg: Regs, preserved: set<nat>, m: map<nat, nat>, ins: seq<Instr>, end: set<nat>, k: nat)
    requires k < |ins| && !Sequence(ins[k])
    ensures Wrap(reg, preserved, m, ins, end, k) == [ins[k]] + Wrap(reg, preserved, m, ins, end, k + 1)
  {
  }

  lemma WrapLoose(reg: Regs, preserved: set<nat>, m: map<nat, nat>, ins: seq<Instr>, end: set<nat>, k: nat, e: nat)
    requires LooseRun(ins, k, e)
    ensures k < e <= |ins| && (e < |ins| ==> !Sequence(ins[e]))
    ensures Wrap(reg, preserved, m, ins, end, k) == ins[k..e] + Wrap(reg, preserved, m, ins, end, e)
  {
  }

  lemma WrapCall(reg: Regs, preserved: set<nat>, m: map<nat, nat>, ins: seq<Instr>, end: set<nat>, k: nat, e: nat)
    requires CallRun(ins, k, e)
    ensures k <= e < |ins|
    ensures Wrap(reg, preserved, m, ins, end, k)
         == Saves(m, ListAt(reg, preserved, ins, end, e)) + ins[k..e + 1] + Restores(m, ListAt(reg, preserved, ins, end, e))
          + Wrap(reg, preserved, m, ins, end, e + 1)
  {
    hide ListAt, Saves, Restores;
  }

  lemma WrapEnd(reg: Regs, preserved: set<nat>, m: map<nat, nat>, ins: seq<Instr>, end: set<nat>)
    ensures Wrap(reg, preserved, m, ins, end, |ins|) == []
  {
  }

  // ----- what wrapping leaves alone -----

  predicate Inserted(in_: Instr) {
    in_.op.Spill? || in_.op.Reload?
  }

  /** The instructions that were not inserted. */
  function Originals(s: seq<Instr>): seq<Instr> {
    if s == [] then [] else if Inserted(s[0]) then Originals(s[1..]) else [s[0]] + Originals(s[1..])
  }

  lemma {:induction false} OriginalsConcat(a: seq<Instr>, b: seq<Instr>)
    ensures Originals(a + b) == Originals(a) + Originals(b)
  {
    if a == [] {
      assert a + b == b;
    } else {
      assert (a + b)[1..] == a[1..] + b;
      OriginalsConcat(a[1..], b);
    }
  }

  lemma {:induction false} AllOriginal(s: seq<Instr>)
    requires forall i :: 0 <= i < |s| ==> !Inserted(s[i])
    ensures Originals(s) == s
  {
    if s != [] {
      AllOriginal(s[1..]);
    }
  }

  lemma {:induction false} NoneOriginal(s: seq<Instr>)
    requires forall i :: 0 <= i < |s| ==> Inserted(s[i])
    ensures Originals(s) == []
  {
    if s != [] {
      NoneOriginal(s[1..]);
    }
  }

  lemma OriginalsOfSegment(m: map<nat, nat>, ts: seq<nat>, mid: seq<Instr>, rest: seq<Instr>)
    requires forall i :: 0 <= i < |mid| ==> !Inserted(mid[i])
    ensures Originals(Saves(m, ts) + mid + Restores(m, ts) + rest) == mid + Originals(rest)
  {
    hide Originals, Saves, Restores;
    var a, b := Saves(m, ts), Restores(m, ts);
    SavesNotOriginal(m, ts);
    AllOriginal(mid);
    OriginalsConcat(a + mid + b, rest);
    OriginalsConcat(a + mid, b);
    OriginalsConcat(a, mid);
  }

  lemma SavesNotOriginal(m: map<nat, nat>, ts: seq<nat>)
    ensures Originals(Saves(m, ts)) == [] && Originals(Restores(m, ts)) == []
  {
    NoneOriginal(Saves(m, ts));
    NoneOriginal(Restores(m, ts));
  }

  lemma OriginalsOfPlain(in_: Instr, rest: seq<Instr>)
    requires !Inserted(in_)
    ensures Originals([in_] + rest) == [in_] + Originals(rest)
  {
    assert ([in_] + rest)[1..] == rest;
  }

  /** The original instructions, in their order. */
  lemma {:induction false} WrapKeepsOrder(reg: Regs, preserved: set<nat>, m: map<nat, nat>, ins: seq<Instr>, end: set<nat>, k: nat)
    requires k <= |ins| && forall i :: 0 <= i < |ins| ==> !Inserted(ins[i])
    ensures Originals(Wrap(reg, preserved, m, ins, end, k)) == ins[k..]
    decreases |ins| - k
  {
    hide Wrap, Originals, ListAt, Saves, Restores, ArgEnd;
    if k == |ins| {
      WrapEnd(reg, preserved, m, ins, end);
      NoneOriginal([]);
    } else if !Sequence(ins[k]) {
      WrapPlain(reg, preserved, m, ins, end, k);
      WrapKeepsOrder(reg, preserved, m, ins, end, k + 1);
      OriginalsOfPlain(ins[k], Wrap(reg, preserved, m, ins, end, k + 1));
    } else if e: nat :| LooseRun(ins, k, e) {
      WrapLoose(reg, preserved, m, ins, end, k, e);
      WrapKeepsOrder(reg, preserved, m, ins, end, e);
      AllOriginal(ins[k..e]);
      OriginalsConcat(ins[k..e], Wrap(reg, preserved, m, ins, end, e));
      assert ins[k..] == ins[k..e] + ins[e..];
    } else {
      var e := ArgEnd(ins, k);
      assert !LooseRun(ins, k, e);
      WrapCall(reg, preserved, m, ins, end, k, e);
      WrapKeepsOrder(reg, preserved, m, ins, end, e + 1);
      OriginalsOfSegment(m, ListAt(reg, preserved, ins, end, e), ins[k..e + 1], Wrap(reg, preserved, m, ins, end, e + 1));
      assert ins[k..] == ins[k..e + 1] + ins[e + 1..];
    }
  }

  /** Nothing is inserted right after an argument. */
  ghost predicate ArgsTight(s: seq<Instr>) {
    forall i, j :: 0 <= i && j == i + 1 && j < |s| && s[i].op.Arg? ==> !Inserted(s[j])
  }

  lemma TightConcat(a: seq<Instr>, b: seq<Instr>)
    requires ArgsTight(a) && ArgsTight(b)
    requires a == [] || b == [] || !a[|a| - 1].op.Arg? || !Inserted(b[0])
    ensures ArgsTight(a + b)
  {
    var s := a + b;
    forall i, j | 0 <= i && j == i + 1 && j < |s| && s[i].op.Arg?
      ensures !Inserted(s[j])
    {
      if i >= |a| {
        assert s[i] == b[i - |a|] && s[j] == b[j - |a|];
      }
    }
  }

  lemma NoArgsTight(s: seq<Instr>)
    requires forall i :: 0 <= i < |s| ==> !s[i].op.Arg?
    ensures ArgsTight(s)
  {
  }

  lemma CallTight(m: map<nat, nat>, ts: seq<nat>, mid: seq<Instr>, rest: seq<Instr>)
    requires ArgsTight(mid) && ArgsTight(rest) && mid != [] && !Inserted(mid[0]) && !mid[|mid| - 1].op.Arg?
    ensures ArgsTight(Saves(m, ts) + mid + Restores(m, ts) + rest)
  {
    hide ArgsTight;
    var a, b := Saves(m, ts), Restores(m, ts);
    NoArgsTight(a);
    NoArgsTight(b);
    TightConcat(a, mid);
    TightConcat(a + mid, b);
    assert b != [] ==> (a + mid + b)[|a + mid + b| - 1] == b[|b| - 1];
    assert b == [] ==> a + mid + b == a + mid;
    TightConcat(a + mid + b, rest);
  }

  /** Each run of arguments still meets its call with nothing between. */
  lemma {:induction false} WrapKeepsRuns(reg: Regs, preserved: set<nat>, m: map<nat, nat>, ins: seq<Instr>, end: set<nat>, k: nat)
    requires k <= |ins| && forall i :: 0 <= i < |ins| ==> !Inserted(ins[i])
    ensures ArgsTight(Wrap(reg, preserved, m, ins, end, k))
    decreases |ins| - k
  {
    hide ArgsTight, Wrap, ListAt, Saves, Restores, ArgEnd;
    if k == |ins| {
      WrapEnd(reg, preserved, m, ins, end);
      NoArgsTight([]);
    } else if !Sequence(ins[k]) {
      WrapPlain(reg, preserved, m, ins, end, k);
      WrapKeepsRuns(reg, preserved, m, ins, end, k + 1);
      NoArgsTight([ins[k]]);
      TightConcat([ins[k]], Wrap(reg, preserved, m, ins, end, k + 1));
    } else if e: nat :| LooseRun(ins, k, e) {
      WrapLoose(reg, preserved, m, ins, end, k, e);
      SegmentTight(ins, k, e);
      WrapKeepsRuns(reg, preserved, m, ins, end, e);
      if e < |ins| {
        WrapPlain(reg, preserved, m, ins, end, e);
      } else {
        WrapEnd(reg, preserved, m, ins, end);
      }
      TightConcat(ins[k..e], Wrap(reg, preserved, m, ins, end, e));
    } else {
      var e := ArgEnd(ins, k);
      assert !LooseRun(ins, k, e);
      WrapCall(reg, preserved, m, ins, end, k, e);
      WrapKeepsRuns(reg, preserved, m, ins, end, e + 1);
      SegmentTight(ins, k, e + 1);
      CallTight(m, ListAt(reg, preserved, ins, end, e), ins[k..e + 1], Wrap(reg, preserved, m, ins, end, e + 1));
    }
  }

  lemma SegmentTight(ins: seq<Instr>, i: nat, j: nat)
    requires i <= j <= |ins| && forall x :: 0 <= x < |ins| ==> !Inserted(ins[x])
    ensures ArgsTight(ins[i..j])
  {
  }

  /** With nothing to save the block is unchanged. */
  lemma {:induction false} WrapNothing(reg: Regs, preserved: set<nat>, m: map<nat, nat>, ins: seq<Instr>, end: set<nat>, k: nat)
    requires k <= |ins| && forall i :: 0 <= i < |ins| ==> ListAt(reg, preserved, ins, end, i) == []
    ensures Wrap(reg, preserved, m, ins, end, k) == ins[k..]
    decreases |ins| - k
  {
    hide Wrap, ListAt, ArgEnd;
    if k == |ins| {
      WrapEnd(reg, preserved, m, ins, end);
    } else if !Sequence(ins[k]) {
      WrapPlain(reg, preserved, m, ins, end, k);
      WrapNothing(reg, preserved, m, ins, end, k + 1);
    } else if e: nat :| LooseRun(ins, k, e) {
      WrapLoose(reg, preserved, m, ins, end, k, e);
      WrapNothing(reg, preserved, m, ins, end, e);
    } else {
      var e := ArgEnd(ins, k);
      assert !LooseRun(ins, k, e);
      WrapCall(reg, preserved, m, ins, end, k, e);
      WrapNothing(reg, preserved, m, ins, end, e + 1);
    }
  }

  // ----- slots -----

  /** A word of the area [base, bytes), at a multiple of eight from its start. */
  ghost predicate WordAt(base: nat, bytes: nat, v: nat) {
    base <= v && v + 8 <= bytes && (v - base) % 8 == 0
  }

  /** Save slots are distinct words that exactly extend the spill area. */
  ghost predicate SlotsExtend(m: map<nat, nat>, base: nat, bytes: nat) {
    && bytes == base + 8 * |m|
    && (forall t :: t in m ==> WordAt(base, bytes, m[t]))
    && (forall t, u :: t in m && u in m && t != u ==> m[t] != m[u])
  }

  lemma NextWord(base: nat, n: nat)
    ensures WordAt(base, base + 8 * n + 8, base + 8 * n)
  {
  }

  lemma WordStays(base: nat, bytes: nat, v: nat)
    requires WordAt(base, bytes, v)
    ensures WordAt(base, bytes + 8, v) && v != bytes
  {
  }

  ghost predicate Extends(m: map<nat, nat>, n: map<nat, nat>) {
    forall t :: t in m ==> t in n && n[t] == m[t]
  }

  lemma SlotAdded(m: map<nat, nat>, base: nat, bytes: nat, t: nat)
    requires SlotsExtend(m, base, bytes) && t !in m
    ensures SlotsExtend(m[t := bytes], base, bytes + 8)
  {
    hide WordAt;
    NextWord(base, |m|);
    OneMore(m, t, bytes);
    forall u | u in m
      ensures WordAt(base, bytes + 8, m[u]) && m[u] != bytes
    {
      WordStays(base, bytes, m[u]);
    }
    var n := m[t := bytes];
    forall u, v | u in n && v in n && u != v
      ensures n[u] != n[v]
    {
    }
  }

  lemma OneMore(m: map<nat, nat>, t: nat, v: nat)
    requires t !in m
    ensures |m[t := v]| == |m| + 1
  {
  }

  /** The saves before one call, giving each new temporary the next slot. */
  method EmitSaves(ts: seq<nat>, m0: map<nat, nat>, bytes0: nat, ghost base: nat)
    returns (pre: seq<Instr>, m: map<nat, nat>, bytes: nat)
    requires SlotsExtend(m0, base, bytes0)
    ensures SlotsExtend(m, base, bytes) && Extends(m0, m) && forall t :: t in ts ==> t in m
    ensures forall n :: Extends(m, n) ==> pre == Saves(n, ts)
  {
    hide SlotsExtend;
    pre, m, bytes := [], m0, bytes0;
    for i := 0 to |ts|
      invariant SlotsExtend(m, base, bytes) && Extends(m0, m) && |pre| == i
      invariant forall j :: 0 <= j < i ==> ts[j] in m && pre[j] == Save(m, ts[j])
    {
      if ts[i] !in m {
        SlotAdded(m, base, bytes, ts[i]);
        m := m[ts[i] := bytes];
        bytes := bytes + 8;
      }
      pre := pre + [Save(m, ts[i])];
    }
  }

  // ----- pass 1 -----

  /** One call's list. */
  method ListFor(reg: Regs, gcRef: seq<bool>, preserved: set<nat>, in_: Instr, live: set<nat>) returns (r: Option<seq<nat>>)
    requires |gcRef| == |reg|
    ensures r.None? <==> exists t :: 0 <= t < |reg| && gcRef[t] && SavedAt(reg, preserved, in_, live, t)
    ensures r.Some? ==> r.value == SaveList(reg, preserved, in_, live, |reg|)
  {
    var ts := [];
    for t := 0 to |reg|
      invariant ts == SaveList(reg, preserved, in_, live, t)
      invariant forall u :: 0 <= u < t && gcRef[u] ==> !SavedAt(reg, preserved, in_, live, u)
    {
      if SavedAt(reg, preserved, in_, live, t) {
        if gcRef[t] {
          return None;
        }
        ts := ts + [t];
      }
    }
    r := Some(ts);
  }

  /** A managed reference would have to be saved around a call of this block. */
  ghost predicate GcSaved(reg: Regs, gcRef: seq<bool>, preserved: set<nat>, ins: seq<Instr>, end: set<nat>, k: nat)
    requires k < |ins| && |gcRef| == |reg|
  {
    exists t :: 0 <= t < |reg| && gcRef[t] && SavedAt(reg, preserved, ins[k], RawFrom(ins, k + 1, end), t)
  }

  lemma GcSavedIs(reg: Regs, gcRef: seq<bool>, preserved: set<nat>, ins: seq<Instr>, end: set<nat>, k: nat)
    requires k < |ins| && |gcRef| == |reg|
    ensures GcSaved(reg, gcRef, preserved, ins, end, k) <==>
            exists t :: 0 <= t < |reg| && gcRef[t] && SavedAt(reg, preserved, ins[k], RawFrom(ins, k + 1, end), t)
  {
  }

  /** The lists of one block, found by the backward walk. */
  method BlockLists(reg: Regs, gcRef: seq<bool>, preserved: set<nat>, b: Block, out: set<nat>) returns (r: Option<seq<seq<nat>>>)
    requires |gcRef| == |reg|
    ensures r.None? <==> exists k :: 0 <= k < |b.instrs| && GcSaved(reg, gcRef, preserved, b.instrs, End(b, out), k)
    ensures r.Some? ==> |r.value| == |b.instrs|
    ensures r.Some? ==> forall k :: 0 <= k < |b.instrs| ==> r.value[k] == ListAt(reg, preserved, b.instrs, End(b, out), k)
  {
    hide SaveList, RawFrom, GcSaved;
    var live := AddTemps(out, [b.jmpArg] + b.jmpArgs);
    ghost var ins, end := b.instrs, live;
    assert end == End(b, out);
    NothingFrom(ins, end);
    var lists := [];
    var k := |b.instrs|;
    while k > 0
      invariant 0 <= k <= |ins| && live == RawFrom(ins, k, end) && |lists| == |ins| - k
      invariant forall j :: k <= j < |ins| ==> lists[j - k] == ListAt(reg, preserved, ins, end, j)
      invariant forall j :: k <= j < |ins| ==> !GcSaved(reg, gcRef, preserved, ins, end, j)
    {
      k := k - 1;
      var in_ := b.instrs[k];
      var ts := ListFor(reg, gcRef, preserved, in_, live);
      GcSavedIs(reg, gcRef, preserved, ins, end, k);
      if ts.None? {
        return None;
      }
      RawStep(ins, k, end);
      lists := [ts.value] + lists;
      live := RemoveTemps(live, [in_.to] + in_.defs);
      live := AddTemps(live, Uses(in_));
    }
    r := Some(lists);
  }

  // ----- pass 2 -----

  ghost predicate ListsOk(reg: Regs, preserved: set<nat>, ins: seq<Instr>, end: set<nat>, lists: seq<seq<nat>>) {
    |lists| == |ins| && forall k :: 0 <= k < |ins| ==> lists[k] == ListAt(reg, preserved, ins, end, k)
  }

  ghost predicate SlottedTo(lists: seq<seq<nat>>, m: map<nat, nat>, k: nat) {
    forall j, t :: 0 <= j < k && j < |lists| && t in lists[j] ==> t in m
  }

  /** What has been emitted is the wrapped block up to k, however slots are added. */
  ghost predicate Emitted(reg: Regs, preserved: set<nat>, m: map<nat, nat>, ins: seq<Instr>, end: set<nat>, k: nat, out: seq<Instr>) {
    k <= |ins| && forall n :: Extends(m, n) ==> Wrap(reg, preserved, n, ins, end, 0) == out + Wrap(reg, preserved, n, ins, end, k)
  }

  lemma EmitPlain(reg: Regs, preserved: set<nat>, m: map<nat, nat>, ins: seq<Instr>, end: set<nat>, k: nat, out: seq<Instr>)
    requires Emitted(reg, preserved, m, ins, end, k, out) && k < |ins| && !Sequence(ins[k])
    ensures Emitted(reg, preserved, m, ins, end, k + 1, out + [ins[k]])
  {
    hide Wrap, Extends;
    forall n | Extends(m, n)
      ensures Wrap(reg, preserved, n, ins, end, 0) == out + [ins[k]] + Wrap(reg, preserved, n, ins, end, k + 1)
    {
      WrapPlain(reg, preserved, n, ins, end, k);
    }
  }

  lemma EmitLoose(reg: Regs, preserved: set<nat>, m: map<nat, nat>, ins: seq<Instr>, end: set<nat>, k: nat, e: nat, out: seq<Instr>)
    requires Emitted(reg, preserved, m, ins, end, k, out) && LooseRun(ins, k, e)
    ensures Emitted(reg, preserved, m, ins, end, e, out + ins[k..e])
  {
    hide Wrap, Extends, ArgEnd;
    forall n | Extends(m, n)
      ensures Wrap(reg, preserved, n, ins, end, 0) == out + ins[k..e] + Wrap(reg, preserved, n, ins, end, e)
    {
      WrapLoose(reg, preserved, n, ins, end, k, e);
    }
  }

  lemma EmitCall(reg: Regs, preserved: set<nat>, m0: map<nat, nat>, m: map<nat, nat>, ins: seq<Instr>, end: set<nat>, k: nat, e: nat,
                 out: seq<Instr>, ts: seq<nat>, pre: seq<Instr>, post: seq<Instr>)
    requires Emitted(reg, preserved, m0, ins, end, k, out) && CallRun(ins, k, e)
    requires Extends(m0, m) && ts == ListAt(reg, preserved, ins, end, e)
    requires forall n :: Extends(m, n) ==> pre == Saves(n, ts)
    requires forall n :: Extends(m, n) ==> post == Restores(n, ts)
    ensures Emitted(reg, preserved, m, ins, end, e + 1, out + pre + ins[k..e + 1] + post)
  {
    hide Wrap, Extends, ArgEnd, ListAt, Saves, Restores;
    forall n | Extends(m, n)
      ensures Wrap(reg, preserved, n, ins, end, 0) == out + pre + ins[k..e + 1] + post + Wrap(reg, preserved, n, ins, end, e + 1)
    {
      ExtendsTransitive(m0, m, n);
      WrapCall(reg, preserved, n, ins, end, k, e);
      Regroup(out, pre, ins[k..e + 1], post, Wrap(reg, preserved, n, ins, end, e + 1));
    }
  }

  lemma Regroup(out: seq<Instr>, a: seq<Instr>, b: seq<Instr>, c: seq<Instr>, d: seq<Instr>)
    ensures out + (a + b + c + d) == out + a + b + c + d
  {
  }

  lemma ExtendsTransitive(a: map<nat, nat>, b: map<nat, nat>, c: map<nat, nat>)
    requires Extends(a, b) && Extends(b, c)
    ensures Extends(a, c)
  {
  }

  method EmitRestores(ts: seq<nat>, m: map<nat, nat>) returns (post: seq<Instr>)
    requires forall t :: t in ts ==> t in m
    ensures forall n :: Extends(m, n) ==> post == Restores(n, ts)
  {
    post := [];
    for i := 0 to |ts|
      invariant |post| == i && forall j :: 0 <= j < i ==> post[j] == Restore(m, ts[j])
    {
      post := post + [Restore(m, ts[i])];
    }
    assert forall i :: 0 <= i < |ts| ==> ts[i] in ts;
  }

  /** Rebuilds one block. */
  method WrapBlock(ghost reg: Regs, ghost preserved: set<nat>, ins: seq<Instr>, ghost end: set<nat>, lists: seq<seq<nat>>,
                   m0: map<nat, nat>, bytes0: nat, ghost base: nat)
    returns (out: seq<Instr>, m: map<nat, nat>, bytes: nat)
    requires ListsOk(reg, preserved, ins, end, lists) && SlotsExtend(m0, base, bytes0)
    ensures SlotsExtend(m, base, bytes) && Extends(m0, m) && SlottedTo(lists, m, |ins|)
    ensures forall n :: Extends(m, n) ==> out == Wrap(reg, preserved, n, ins, end, 0)
  {
    hide SlotsExtend, Emitted, ListAt, Wrap, ArgEnd;
    out, m, bytes := [], m0, bytes0;
    var k := 0;
    NothingEmitted(reg, preserved, m, ins, end);
    while k < |ins|
      invariant 0 <= k <= |ins| && SlotsExtend(m, base, bytes) && Extends(m0, m)
      invariant Emitted(reg, preserved, m, ins, end, k, out) && SlottedTo(lists, m, k)
    {
      if !Sequence(ins[k]) {
        PlainSavesNothing(reg, preserved, ins, end, k);
        EmitPlain(reg, preserved, m, ins, end, k, out);
        out := out + [ins[k]];
        k := k + 1;
        continue;
      }
      var e := k;
      while e < |ins| && ins[e].op.Arg?
        invariant k <= e <= |ins| && forall i :: k <= i < e ==> ins[i].op.Arg?
      {
        e := e + 1;
      }
      ArgEndIs(ins, k, e);
      ArgsSaveNothing(reg, preserved, ins, end, k, e, lists, m);
      if e == |ins| || !ins[e].op.Call? {
        EmitLoose(reg, preserved, m, ins, end, k, e, out);
        out := out + ins[k..e];
        k := e;
        continue;
      }
      var pre, m1, bytes1 := EmitSaves(lists[e], m, bytes, base);
      var post := EmitRestores(lists[e], m1);
      EmitCall(reg, preserved, m, m1, ins, end, k, e, out, lists[e], pre, post);
      out := out + pre + ins[k..e + 1] + post;
      m, bytes := m1, bytes1;
      k := e + 1;
    }
    AllEmitted(reg, preserved, m, ins, end, out);
  }

  lemma NothingEmitted(reg: Regs, preserved: set<nat>, m: map<nat, nat>, ins: seq<Instr>, end: set<nat>)
    ensures Emitted(reg, preserved, m, ins, end, 0, [])
  {
  }

  lemma AllEmitted(reg: Regs, preserved: set<nat>, m: map<nat, nat>, ins: seq<Instr>, end: set<nat>, out: seq<Instr>)
    requires Emitted(reg, preserved, m, ins, end, |ins|, out)
    ensures forall n :: Extends(m, n) ==> out == Wrap(reg, preserved, n, ins, end, 0)
  {
    forall n | Extends(m, n)
      ensures out == Wrap(reg, preserved, n, ins, end, 0)
    {
      assert Wrap(reg, preserved, n, ins, end, 0) == out + Wrap(reg, preserved, n, ins, end, |ins|);
    }
  }

  lemma {:induction false} ArgEndIs(ins: seq<Instr>, k: nat, e: nat)
    requires k <= e <= |ins| && (forall i :: k <= i < e ==> ins[i].op.Arg?) && (e == |ins| || !ins[e].op.Arg?)
    ensures ArgEnd(ins, k) == e
    decreases e - k
  {
    if k < e {
      ArgEndIs(ins, k + 1, e);
    }
  }

  lemma {:induction false} NoCallNoList(reg: Regs, preserved: set<nat>, in_: Instr, after: set<nat>, n: nat)
    requires !in_.op.Call?
    ensures SaveList(reg, preserved, in_, after, n) == []
  {
    if n > 0 {
      NoCallNoList(reg, preserved, in_, after, n - 1);
    }
  }

  lemma PlainSavesNothing(reg: Regs, preserved: set<nat>, ins: seq<Instr>, end: set<nat>, k: nat)
    requires k < |ins| && !ins[k].op.Call?
    ensures ListAt(reg, preserved, ins, end, k) == []
  {
    NoCallNoList(reg, preserved, ins[k], RawFrom(ins, k + 1, end), |reg|);
  }

  lemma ArgsSaveNothing(reg: Regs, preserved: set<nat>, ins: seq<Instr>, end: set<nat>, k: nat, e: nat, lists: seq<seq<nat>>, m: map<nat, nat>)
    requires ListsOk(reg, preserved, ins, end, lists) && k <= e <= |ins| && (forall i :: k <= i < e ==> ins[i].op.Arg?)
    requires SlottedTo(lists, m, k)
    ensures SlottedTo(lists, m, e)
  {
    forall i | k <= i < e
      ensures lists[i] == []
    {
      PlainSavesNothing(reg, preserved, ins, end, i);
    }
  }

  // ----- the pass -----

  datatype Saved = Saved(func: Func, slots: map<nat, nat>, spillBytes: nat)

  ghost predicate BlocksFit(f: Func, rpo: seq<nat>, outs: seq<set<nat>>) {
    |outs| == |f.blocks| && Distinct(rpo) && forall i :: 0 <= i < |rpo| ==> rpo[i] < |f.blocks|
  }

  /** The rewritten block. */
  ghost function Wrapped(reg: Regs, preserved: set<nat>, m: map<nat, nat>, b: Block, out: set<nat>): Block {
    b.(instrs := Wrap(reg, preserved, m, b.instrs, End(b, out), 0))
  }

  /** Reachable blocks are wrapped, the rest of the function is unchanged, and every
      saved temporary has its own slot beyond the spill area. */
  ghost predicate SavesInserted(f: Func, rpo: seq<nat>, outs: seq<set<nat>>, reg: Regs, preserved: set<nat>, base: nat, s: Saved) {
    && BlocksFit(f, rpo, outs) && SlotsExtend(s.slots, base, s.spillBytes)
    && s.func == f.(blocks := s.func.blocks) && |s.func.blocks| == |f.blocks|
    && (forall b :: 0 <= b < |f.blocks| ==>
          s.func.blocks[b] == if b in rpo then Wrapped(reg, preserved, s.slots, f.blocks[b], outs[b]) else f.blocks[b])
    && (forall i :: 0 <= i < |rpo| ==> BlockSlotted(f.blocks[rpo[i]], outs[rpo[i]], reg, preserved, s.slots))
  }

  ghost predicate BlockSlotted(b: Block, out: set<nat>, reg: Regs, preserved: set<nat>, m: map<nat, nat>) {
    forall k, t :: 0 <= k < |b.instrs| && t in ListAt(reg, preserved, b.instrs, End(b, out), k) ==> t in m
  }

  ghost predicate BlockGcSaved(reg: Regs, gcRef: seq<bool>, preserved: set<nat>, b: Block, out: set<nat>)
    requires |gcRef| == |reg|
  {
    exists k :: 0 <= k < |b.instrs| && GcSaved(reg, gcRef, preserved, b.instrs, End(b, out), k)
  }

  method AllLists(f: Func, rpo: seq<nat>, outs: seq<set<nat>>, reg: Regs, gcRef: seq<bool>, preserved: set<nat>)
    returns (r: Option<seq<seq<seq<nat>>>>)
    requires BlocksFit(f, rpo, outs) && |gcRef| == |reg|
    ensures r.None? <==> exists i :: 0 <= i < |rpo| && BlockGcSaved(reg, gcRef, preserved, f.blocks[rpo[i]], outs[rpo[i]])
    ensures r.Some? ==> |r.value| == |rpo| && forall i :: 0 <= i < |rpo| ==>
              ListsOk(reg, preserved, f.blocks[rpo[i]].instrs, End(f.blocks[rpo[i]], outs[rpo[i]]), r.value[i])
  {
    hide SaveList;
    var all := [];
    for i := 0 to |rpo|
      invariant |all| == i
      invariant forall j :: 0 <= j < i ==> !BlockGcSaved(reg, gcRef, preserved, f.blocks[rpo[j]], outs[rpo[j]])
      invariant forall j :: 0 <= j < i ==>
                  ListsOk(reg, preserved, f.blocks[rpo[j]].instrs, End(f.blocks[rpo[j]], outs[rpo[j]]), all[j])
    {
      var lists := BlockLists(reg, gcRef, preserved, f.blocks[rpo[i]], outs[rpo[i]]);
      if lists.None? {
        assert BlockGcSaved(reg, gcRef, preserved, f.blocks[rpo[i]], outs[rpo[i]]);
        return None;
      }
      all := all + [lists.value];
    }
    r := Some(all);
  }

  /** Where the second pass has got to. */
  ghost predicate Rebuilt(f: Func, rpo: seq<nat>, outs: seq<set<nat>>, reg: Regs, preserved: set<nat>, m: map<nat, nat>, blocks: seq<Block>, i: nat) {
    && BlocksFit(f, rpo, outs) && |blocks| == |f.blocks| && i <= |rpo|
    && (forall b :: 0 <= b < |f.blocks| && b !in rpo[..i] ==> blocks[b] == f.blocks[b])
    && (forall j :: 0 <= j < i ==> RebuiltAt(f.blocks[rpo[j]], outs[rpo[j]], reg, preserved, m, blocks[rpo[j]]))
  }

  ghost predicate RebuiltAt(b: Block, out: set<nat>, reg: Regs, preserved: set<nat>, m: map<nat, nat>, b': Block) {
    && BlockSlotted(b, out, reg, preserved, m)
    && forall n :: Extends(m, n) ==> b' == Wrapped(reg, preserved, n, b, out)
  }

  lemma RebuiltMore(b: Block, out: set<nat>, reg: Regs, preserved: set<nat>, m: map<nat, nat>, m': map<nat, nat>, b': Block)
    requires RebuiltAt(b, out, reg, preserved, m, b') && Extends(m, m')
    ensures RebuiltAt(b, out, reg, preserved, m', b')
  {
    forall n | Extends(m', n)
      ensures b' == Wrapped(reg, preserved, n, b, out)
    {
      assert Extends(m, n);
    }
  }

  lemma RebuildNext(f: Func, rpo: seq<nat>, outs: seq<set<nat>>, reg: Regs, preserved: set<nat>, m: map<nat, nat>, m': map<nat, nat>,
                    blocks: seq<Block>, i: nat, b': Block)
    requires Rebuilt(f, rpo, outs, reg, preserved, m, blocks, i) && i < |rpo| && Extends(m, m')
    requires RebuiltAt(f.blocks[rpo[i]], outs[rpo[i]], reg, preserved, m', b')
    ensures Rebuilt(f, rpo, outs, reg, preserved, m', blocks[rpo[i] := b'], i + 1)
  {
    hide RebuiltAt, Extends;
    var bs := blocks[rpo[i] := b'];
    assert rpo[..i + 1] == rpo[..i] + [rpo[i]];
    forall j | 0 <= j < i + 1
      ensures RebuiltAt(f.blocks[rpo[j]], outs[rpo[j]], reg, preserved, m', bs[rpo[j]])
    {
      if j < i {
        RebuiltMore(f.blocks[rpo[j]], outs[rpo[j]], reg, preserved, m, m', blocks[rpo[j]]);
      }
    }
  }

  lemma RebuiltAll(f: Func, rpo: seq<nat>, outs: seq<set<nat>>, reg: Regs, preserved: set<nat>, m: map<nat, nat>, blocks: seq<Block>,
                   base: nat, bytes: nat)
    requires Rebuilt(f, rpo, outs, reg, preserved, m, blocks, |rpo|) && SlotsExtend(m, base, bytes)
    ensures SavesInserted(f, rpo, outs, reg, preserved, base, Saved(f.(blocks := blocks), m, bytes))
  {
    hide Wrapped, SlotsExtend;
    assert rpo[..|rpo|] == rpo;
    assert Extends(m, m);
    forall b | 0 <= b < |f.blocks|
      ensures blocks[b] == if b in rpo then Wrapped(reg, preserved, m, f.blocks[b], outs[b]) else f.blocks[b]
    {
      if b in rpo {
        var j :| 0 <= j < |rpo| && rpo[j] == b;
        assert RebuiltAt(f.blocks[rpo[j]], outs[rpo[j]], reg, preserved, m, blocks[rpo[j]]);
      }
    }
    forall i | 0 <= i < |rpo|
      ensures BlockSlotted(f.blocks[rpo[i]], outs[rpo[i]], reg, preserved, m)
    {
      assert RebuiltAt(f.blocks[rpo[i]], outs[rpo[i]], reg, preserved, m, blocks[rpo[i]]);
    }
  }

  lemma BlockRebuilt(b: Block, out: set<nat>, reg: Regs, preserved: set<nat>, m: map<nat, nat>, lists: seq<seq<nat>>, ins: seq<Instr>)
    requires ListsOk(reg, preserved, b.instrs, End(b, out), lists) && SlottedTo(lists, m, |b.instrs|)
    requires forall n :: Extends(m, n) ==> ins == Wrap(reg, preserved, n, b.instrs, End(b, out), 0)
    ensures RebuiltAt(b, out, reg, preserved, m, b.(instrs := ins))
  {
    hide ListAt, Wrap, Extends;
  }

  /** Fails exactly when a managed reference sits across a call in a register the call
      may destroy. */
  method InsertCallerSaves(f: Func, rpo: seq<nat>, outs: seq<set<nat>>, reg: Regs, gcRef: seq<bool>, preserved: set<nat>, base: nat)
    returns (r: Option<Saved>)
    requires BlocksFit(f, rpo, outs) && |gcRef| == |reg|
    ensures r.None? <==> exists i :: 0 <= i < |rpo| && BlockGcSaved(reg, gcRef, preserved, f.blocks[rpo[i]], outs[rpo[i]])
    ensures r.Some? ==> SavesInserted(f, rpo, outs, reg, preserved, base, r.value)
  {
    hide SlotsExtend, Rebuilt, ListsOk, SavesInserted, SlottedTo, RebuiltAt;
    var all := AllLists(f, rpo, outs, reg, gcRef, preserved);
    if all.None? {
      return None;
    }
    if forall i, k :: 0 <= i < |all.value| && 0 <= k < |all.value[i]| ==> all.value[i][k] == [] {
      NothingSaved(f, rpo, outs, reg, preserved, base, all.value);
      return Some(Saved(f, map[], base));
    }
    var m: map<nat, nat>, bytes, blocks := map[], base, f.blocks;
    StartRebuild(f, rpo, outs, reg, preserved, base);
    for i := 0 to |rpo|
      invariant SlotsExtend(m, base, bytes) && |blocks| == |f.blocks|
      invariant Rebuilt(f, rpo, outs, reg, preserved, m, blocks, i)
    {
      var b := f.blocks[rpo[i]];
      ghost var end := End(b, outs[rpo[i]]);
      var out, m1, bytes1 := WrapBlock(reg, preserved, b.instrs, end, all.value[i], m, bytes, base);
      BlockRebuilt(b, outs[rpo[i]], reg, preserved, m1, all.value[i], out);
      RebuildNext(f, rpo, outs, reg, preserved, m, m1, blocks, i, b.(instrs := out));
      blocks := blocks[rpo[i] := b.(instrs := out)];
      m, bytes := m1, bytes1;
    }
    RebuiltAll(f, rpo, outs, reg, preserved, m, blocks, base, bytes);
    r := Some(Saved(f.(blocks := blocks), m, bytes));
  }

  lemma NothingSaved(f: Func, rpo: seq<nat>, outs: seq<set<nat>>, reg: Regs, preserved: set<nat>, base: nat, all: seq<seq<seq<nat>>>)
    requires BlocksFit(f, rpo, outs) && |all| == |rpo| && forall i, k :: 0 <= i < |all| && 0 <= k < |all[i]| ==> all[i][k] == []
    requires forall i :: 0 <= i < |rpo| ==> ListsOk(reg, preserved, f.blocks[rpo[i]].instrs, End(f.blocks[rpo[i]], outs[rpo[i]]), all[i])
    ensures SavesInserted(f, rpo, outs, reg, preserved, base, Saved(f, map[], base))
  {
    hide ListAt, Wrap;
    forall i | 0 <= i < |rpo|
      ensures BlockSlotted(f.blocks[rpo[i]], outs[rpo[i]], reg, preserved, map[])
      ensures f.blocks[rpo[i]] == Wrapped(reg, preserved, map[], f.blocks[rpo[i]], outs[rpo[i]])
    {
      var b, out := f.blocks[rpo[i]], outs[rpo[i]];
      assert ListsOk(reg, preserved, b.instrs, End(b, out), all[i]);
      WrapNothing(reg, preserved, map[], b.instrs, End(b, out), 0);
    }
  }

  lemma StartRebuild(f: Func, rpo: seq<nat>, outs: seq<set<nat>>, reg: Regs, preserved: set<nat>, base: nat)
    requires BlocksFit(f, rpo, outs)
    ensures SlotsExtend(map[], base, base) && Rebuilt(f, rpo, outs, reg, preserved, map[], f.blocks, 0)
  {
  }
}
