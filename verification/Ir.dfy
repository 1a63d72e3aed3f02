/** The intermediate representation the analyses and the back ends share
    (ir/func.go, ir/instr.go): blocks of instructions over numbered temporaries. */
module Ir {
  import opened Graphs
  import opened Cfg

  /** An operand: a temporary, or anything else (a constant, a symbol, nothing). */
  datatype Ref = Temp(id: nat) | Other(code: nat)

  /** An inline assembly's `pins` are its operands in fixed registers. */
  datatype Op =
    | Copy
    | Par
    | Arg
    | Call(tail: bool)
    | Safepoint
    | Asm(clobbers: set<nat>, pins: set<nat>)
    | LifeStart
    | LifeEnd
    | Alloc(align: nat, size: nat)
    | Spill(slot: nat)
    | Reload(slot: nat)
    | Add
    | Sel
    | Plain(code: nat)
  {
    predicate IsLifetime() { LifeStart? || LifeEnd? }
  }

  /** `defs` are results beyond `to`; `context` is a closure environment read outside
      the argument list. */
  datatype Instr = Instr(op: Op, to: Ref, defs: seq<Ref>, args: seq<Ref>, context: Ref)

  datatype Phi = Phi(to: Ref, args: seq<Ref>, blocks: seq<Option<nat>>)

  datatype Block = Block(phis: seq<Phi>, instrs: seq<Instr>, jmpArg: Ref, jmpArgs: seq<Ref>,
                         succs: seq<Option<nat>>, synthetic: seq<Option<nat>>)

  datatype Func = Func(params: seq<nat>, start: Option<nat>, blocks: seq<Block>, lowered: bool)

  function Exec(f: Func): (g: Graph)
    ensures |g| == |f.blocks|
  {
    seq(|f.blocks|, i requires 0 <= i < |f.blocks| => f.blocks[i].succs)
  }

  function Synthetic(f: Func): (g: Graph)
    ensures |g| == |f.blocks|
  {
    seq(|f.blocks|, i requires 0 <= i < |f.blocks| => f.blocks[i].synthetic)
  }

  function G(f: Func): (g: Graph)
    ensures |g| == |f.blocks|
  {
    Full(Exec(f), Synthetic(f))
  }

  ghost predicate WellFormedPhi(f: Func, p: Phi) {
    && |p.args| == |p.blocks|
    && forall k :: 0 <= k < |p.blocks| && p.blocks[k].Some? ==> p.blocks[k].value < |f.blocks|
  }

  /** Block references stay inside the function, and phi lists pair up. */
  ghost predicate WellFormedFunc(f: Func) {
    && (f.start.Some? ==> f.start.value < |f.blocks|)
    && WellFormed(Exec(f)) && WellFormed(Synthetic(f))
    && forall b, j :: 0 <= b < |f.blocks| && 0 <= j < |f.blocks[b].phis| ==> WellFormedPhi(f, f.blocks[b].phis[j])
  }

  ghost predicate Reachable(f: Func, b: nat) {
    f.start.Some? && Reach(G(f), f.start.value, b)
  }

  /** The temporaries among some operands, in order. */
  function Temps(rs: seq<Ref>): (ts: seq<nat>)
    ensures forall t :: t in ts <==> Temp(t) in rs
  {
    if rs == [] then []
    else if rs[0].Temp? then [rs[0].id] + Temps(rs[1..])
    else Temps(rs[1..])
  }

  /** What an instruction reads: its arguments, and its closure environment if any. */
  function Uses(in_: Instr): seq<Ref> {
    if in_.context.Temp? then in_.args + [in_.context] else in_.args
  }

  function DefSeq(in_: Instr): seq<nat> {
    Temps([in_.to] + in_.defs)
  }

  function UseSeq(in_: Instr): seq<nat> {
    Temps(Uses(in_))
  }

  function TermUses(b: Block): seq<nat> {
    Temps([b.jmpArg] + b.jmpArgs)
  }

  function PhiDefs(b: Block): seq<nat> {
    Temps(seq(|b.phis|, i requires 0 <= i < |b.phis| => b.phis[i].to))
  }

  // ----- what these come to, field by field -----

  /** An instruction reads its arguments and its environment, and writes its result and
      its further results. */
  lemma ReadsAndWrites(in_: Instr, t: nat)
    ensures t in UseSeq(in_) <==> Temp(t) in in_.args || in_.context == Temp(t)
    ensures t in DefSeq(in_) <==> in_.to == Temp(t) || Temp(t) in in_.defs
  {
    assert [in_.to][0] == in_.to;
    assert in_.context.Temp? ==> (in_.args + [in_.context])[|in_.args|] == in_.context;
  }

  /** A terminator reads its operands, and a block's phis write their results. */
  lemma BlockReadsAndWrites(b: Block, t: nat)
    ensures t in TermUses(b) <==> b.jmpArg == Temp(t) || Temp(t) in b.jmpArgs
    ensures t in PhiDefs(b) <==> exists j :: 0 <= j < |b.phis| && b.phis[j].to == Temp(t)
  {
    assert [b.jmpArg][0] == b.jmpArg;
    var tos := seq(|b.phis|, i requires 0 <= i < |b.phis| => b.phis[i].to);
    if j :| 0 <= j < |b.phis| && b.phis[j].to == Temp(t) {
      assert tos[j] == Temp(t);
    }
  }

  lemma TempsFirst(r: Ref, rs: seq<Ref>)
    ensures Temps([r] + rs) == (if r.Temp? then [r.id] else []) + Temps(rs)
  {
    assert ([r] + rs)[1..] == rs;
  }

  /** Operands are read in the order they are listed. */
  lemma {:induction false} ReadInOrder(rs: seq<Ref>, ts: seq<nat>)
    requires |rs| == |ts| && forall i :: 0 <= i < |rs| ==> rs[i] == Temp(ts[i])
    ensures Temps(rs) == ts
  {
    if rs != [] {
      ReadInOrder(rs[1..], ts[1..]);
      assert ts == [ts[0]] + ts[1..];
    }
  }

  /** Control passes from a block to its successors, and for analysis also to its
      synthetic ones. */
  lemma EdgesAre(f: Func, a: nat, b: nat)
    ensures Edge(G(f), a, b) <==> a < |f.blocks| && (Some(b) in f.blocks[a].succs || Some(b) in f.blocks[a].synthetic)
  {
    assert Edge(Exec(f), a, b) <==> a < |f.blocks| && Some(b) in f.blocks[a].succs;
    assert Edge(Synthetic(f), a, b) <==> a < |f.blocks| && Some(b) in f.blocks[a].synthetic;
  }
}
