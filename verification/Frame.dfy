/** Stack-frame layout (arm64/frame.go): everything gets its own bytes, and allocations
    share only the slots their lifetimes let them share. */
module Frame {
  import opened Graphs
  import opened Ir
  import opened AllocaSlots
  import BitFlow

  /** What the frame must hold besides allocations. */
  datatype Needs = Needs(calleeSaved: nat, spillBytes: nat, outgoing: nat, variadic: bool)

  datatype FrameLayout = FrameLayout(frame: nat, outgoing: nat, spillBase: nat, allocOff: map<Pos, nat>, gpSaveOff: nat, fpSaveOff: nat)

  /** Two allocations own the same slot. */
  ghost predicate Shared(groups: map<Pos, Pos>, x: Pos, y: Pos) {
    x in groups && y in groups && groups[x] == groups[y]
  }

  /** Grouped positions are allocations, and those of one group have one shape. */
  ghost predicate GroupsFit(f: Func, groups: map<Pos, Pos>) {
    && (forall x :: x in groups ==> IsAllocAt(f, x))
    && (forall x, y :: x in groups && y in groups && groups[x] == groups[y] ==> ShapeAt(f, x) == ShapeAt(f, y))
  }

  /** An allocation's bytes: aligned, between base and end. */
  ghost predicate InArea(f: Func, x: Pos, off: nat, base: nat, end: nat) {
    IsAllocAt(f, x) && base <= off && off + ShapeAt(f, x).1 <= end && off % ShapeAt(f, x).0 == 0
  }

  ghost predicate Apart(f: Func, offs: map<Pos, nat>, groups: map<Pos, Pos>, x: Pos, y: Pos)
    requires x in offs && y in offs && IsAllocAt(f, x) && IsAllocAt(f, y)
  {
    if Shared(groups, x, y) then offs[x] == offs[y]
    else offs[x] + ShapeAt(f, x).1 <= offs[y] || offs[y] + ShapeAt(f, y).1 <= offs[x]
  }

  /** The allocations placed so far, in [base, end). */
  ghost predicate PlacedOk(f: Func, groups: map<Pos, Pos>, offs: map<Pos, nat>, base: nat, end: nat) {
    && base <= end
    && (forall x :: x in offs ==> InArea(f, x, offs[x], base, end))
    && (forall x, y :: x in offs && y in offs && x != y ==> Apart(f, offs, groups, x, y))
  }

  ghost predicate GroupOffOk(groups: map<Pos, Pos>, offs: map<Pos, nat>, groupOff: map<Pos, nat>) {
    && (forall r :: r in groupOff ==> exists x :: x in offs && x in groups && groups[x] == r && offs[x] == groupOff[r])
    && (forall x :: x in offs && x in groups ==> groups[x] in groupOff)
  }

  /** A fresh slot at the end of the area. */
  lemma FreshSlot(f: Func, groups: map<Pos, Pos>, offs: map<Pos, nat>, base: nat, end: nat, x: Pos, off: nat)
    requires PlacedOk(f, groups, offs, base, end) && IsAllocAt(f, x) && x !in offs && end <= off && off % ShapeAt(f, x).0 == 0
    requires forall y :: y in offs ==> !Shared(groups, x, y)
    ensures PlacedOk(f, groups, offs[x := off], base, off + ShapeAt(f, x).1)
  {
    var n := offs[x := off];
    var end' := off + ShapeAt(f, x).1;
    forall y | y in n
      ensures InArea(f, y, n[y], base, end')
    {
      assert y != x ==> InArea(f, y, offs[y], base, end);
    }
    forall y, z | y in n && z in n && y != z
      ensures Apart(f, n, groups, y, z)
    {
      assert y != x ==> InArea(f, y, offs[y], base, end);
      assert z != x ==> InArea(f, z, offs[z], base, end);
      assert y != x && z != x ==> Apart(f, offs, groups, y, z);
    }
  }

  /** A group's slot used again. */
  lemma ReusedSlot(f: Func, groups: map<Pos, Pos>, offs: map<Pos, nat>, base: nat, end: nat, x: Pos, z: Pos)
    requires GroupsFit(f, groups) && PlacedOk(f, groups, offs, base, end) && x !in offs && z in offs && Shared(groups, x, z)
    ensures PlacedOk(f, groups, offs[x := offs[z]], base, end)
  {
    hide ShapeAt;
    var n := offs[x := offs[z]];
    assert InArea(f, z, offs[z], base, end) && ShapeAt(f, x) == ShapeAt(f, z);
    forall y | y in n
      ensures InArea(f, y, n[y], base, end)
    {
      assert y != x ==> InArea(f, y, offs[y], base, end);
    }
    forall y, w | y in n && w in n && y != w
      ensures Apart(f, n, groups, y, w)
    {
      var y', w' := if y == x then z else y, if w == x then z else w;
      assert y' != w' ==> Apart(f, offs, groups, y', w');
    }
  }

  ghost predicate Earlier(x: Pos, b: nat, k: nat) {
    x.0 < b || (x.0 == b && x.1 < k)
  }

  /** Exactly the allocations before (b, k) have been placed. */
  ghost predicate PlacedTo(f: Func, offs: map<Pos, nat>, b: nat, k: nat) {
    forall x :: x in offs <==> IsAllocAt(f, x) && Earlier(x, b, k)
  }

  /** One allocation. */
  method PlaceOne(f: Func, groups: map<Pos, Pos>, offs0: map<Pos, nat>, groupOff0: map<Pos, nat>, end0: nat, x: Pos, ghost base: nat)
    returns (offs: map<Pos, nat>, groupOff: map<Pos, nat>, end: nat)
    requires GroupsFit(f, groups) && PlacedOk(f, groups, offs0, base, end0) && GroupOffOk(groups, offs0, groupOff0)
    requires IsAllocAt(f, x) && x !in offs0
    ensures PlacedOk(f, groups, offs, base, end) && GroupOffOk(groups, offs, groupOff)
    ensures offs.Keys == offs0.Keys + {x}
  {
    hide PlacedOk, ShapeAt;
    var shape := ShapeAt(f, x);
    ShapeCases(f, x);
    if x in groups && groups[x] in groupOff0 {
      ghost var z :| z in offs0 && z in groups && groups[z] == groups[x] && offs0[z] == groupOff0[groups[x]];
      ReusedSlot(f, groups, offs0, base, end0, x, z);
      offs, groupOff, end := offs0[x := groupOff0[groups[x]]], groupOff0, end0;
      ReuseKeeps(groups, offs0, groupOff0, x);
    } else {
      var off := RoundUp(end0, shape.0);
      RoundUpIs(end0, shape.0);
      FreshSlot(f, groups, offs0, base, end0, x, off);
      offs, end := offs0[x := off], off + shape.1;
      groupOff := if x in groups then groupOff0[groups[x] := off] else groupOff0;
      FreshKeeps(groups, offs0, groupOff0, x, off);
    }
  }

  lemma ShapeCases(f: Func, x: Pos)
    requires IsAllocAt(f, x)
    ensures ShapeAt(f, x).0 == 4 || ShapeAt(f, x).0 == 8 || ShapeAt(f, x).0 == 16
  {
  }

  lemma ReuseKeeps(groups: map<Pos, Pos>, offs: map<Pos, nat>, groupOff: map<Pos, nat>, x: Pos)
    requires GroupOffOk(groups, offs, groupOff) && x !in offs && x in groups && groups[x] in groupOff
    ensures GroupOffOk(groups, offs[x := groupOff[groups[x]]], groupOff)
  {
    var n := offs[x := groupOff[groups[x]]];
    forall r | r in groupOff
      ensures exists y :: y in n && y in groups && groups[y] == r && n[y] == groupOff[r]
    {
      var y :| y in offs && y in groups && groups[y] == r && offs[y] == groupOff[r];
      assert n[y] == offs[y];
    }
  }

  lemma FreshKeeps(groups: map<Pos, Pos>, offs: map<Pos, nat>, groupOff: map<Pos, nat>, x: Pos, off: nat)
    requires GroupOffOk(groups, offs, groupOff) && x !in offs && (x in groups ==> groups[x] !in groupOff)
    ensures GroupOffOk(groups, offs[x := off], if x in groups then groupOff[groups[x] := off] else groupOff)
  {
    var n, go := offs[x := off], if x in groups then groupOff[groups[x] := off] else groupOff;
    forall r | r in go
      ensures exists y :: y in n && y in groups && groups[y] == r && n[y] == go[r]
    {
      if x in groups && r == groups[x] {
        assert n[x] == go[r];
      } else {
        var y :| y in offs && y in groups && groups[y] == r && offs[y] == groupOff[r];
        assert n[y] == offs[y];
      }
    }
  }

  /** Every allocation in block order. */
  method PlaceAll(f: Func, groups: map<Pos, Pos>, base: nat) returns (offs: map<Pos, nat>, end: nat)
    requires GroupsFit(f, groups)
    ensures PlacedOk(f, groups, offs, base, end) && forall x :: x in offs <==> IsAllocAt(f, x)
  {
    hide PlacedOk, GroupOffOk, GroupsFit;
    var groupOff: map<Pos, nat> := map[];
    offs, end := map[], base;
    NothingPlaced(f, groups, base);
    for b := 0 to |f.blocks|
      invariant PlacedOk(f, groups, offs, base, end) && GroupOffOk(groups, offs, groupOff)
      invariant PlacedTo(f, offs, b, 0)
    {
      for k := 0 to |f.blocks[b].instrs|
        invariant PlacedOk(f, groups, offs, base, end) && GroupOffOk(groups, offs, groupOff)
        invariant PlacedTo(f, offs, b, k)
      {
        if f.blocks[b].instrs[k].op.Alloc? {
          offs, groupOff, end := PlaceOne(f, groups, offs, groupOff, end, (b, k), base);
        }
      }
    }
  }

  lemma NothingPlaced(f: Func, groups: map<Pos, Pos>, base: nat)
    ensures PlacedOk(f, groups, map[], base, base) && GroupOffOk(groups, map[], map[]) && PlacedTo(f, map[], 0, 0)
  {
  }

  /** The areas in order, none overlapping the next: frame record, callee saves, spills,
      allocations, variadic save areas; the frame is the least multiple of sixteen that
      holds them above the outgoing area. */
  ghost predicate FrameOk(f: Func, groups: map<Pos, Pos>, n: Needs, lay: FrameLayout, end: nat) {
    && lay.spillBase == 16 + 8 * n.calleeSaved && lay.outgoing == n.outgoing
    && PlacedOk(f, groups, lay.allocOff, lay.spillBase + n.spillBytes, end)
    && (forall x :: x in lay.allocOff <==> IsAllocAt(f, x))
    && (n.variadic ==> end <= lay.gpSaveOff && lay.gpSaveOff % 8 == 0 && lay.gpSaveOff + 64 <= lay.fpSaveOff && lay.fpSaveOff % 16 == 0)
    && (n.variadic ==> lay.gpSaveOff < end + 8 && lay.fpSaveOff < lay.gpSaveOff + 80)
    && Needed(n, lay, end) <= lay.frame < Needed(n, lay, end) + 16 && lay.frame % 16 == 0
  }

  /** The bytes the frame must hold, the outgoing area included. */
  ghost function Needed(n: Needs, lay: FrameLayout, end: nat): nat {
    lay.outgoing + (if n.variadic then lay.fpSaveOff + 128 else end)
  }

  method ComputeFrame(f: Func, groups: map<Pos, Pos>, n: Needs) returns (lay: FrameLayout, ghost end: nat)
    requires GroupsFit(f, groups)
    ensures FrameOk(f, groups, n, lay, end)
  {
    hide PlacedOk, GroupsFit;
    var off := 16 + 8 * n.calleeSaved;
    var spillBase := off;
    off := off + n.spillBytes;
    var offs;
    offs, off := PlaceAll(f, groups, off);
    end := off;
    var gp, fp := 0, 0;
    if n.variadic {
      RoundUpIs(off, 8);
      off := RoundUp(off, 8);
      gp := off;
      off := off + 64;
      RoundUpIs(off, 16);
      off := RoundUp(off, 16);
      fp := off;
      off := off + 128;
    }
    RoundUpIs(n.outgoing + off, 16);
    lay := FrameLayout(RoundUp(n.outgoing + off, 16), n.outgoing, spillBase, offs, gp, fp);
  }

  /** i's position is grouped under its slot owner's. */
  ghost predicate PositionOf(at: map<nat, Pos>, rep: map<nat, nat>, groups: map<Pos, Pos>, i: nat) {
    i in rep && i in at && rep[i] in at && at[i] in groups && groups[at[i]] == at[rep[i]]
  }

  ghost predicate OwnedBy(at: map<nat, Pos>, rep: map<nat, nat>, groups: map<Pos, Pos>, x: Pos, i: nat) {
    PositionOf(at, rep, groups, i) && at[i] == x
  }

  /** The groups by position. */
  ghost predicate ByPosition(at: map<nat, Pos>, rep: map<nat, nat>, groups: map<Pos, Pos>) {
    && (forall i :: i in rep ==> PositionOf(at, rep, groups, i))
    && (forall x :: x in groups ==> exists i :: OwnedBy(at, rep, groups, x, i))
  }

  lemma GroupsOfSlots(f: Func, at: map<nat, Pos>, rep: map<nat, nat>, groups: map<Pos, Pos>)
    requires SlotsSound(f, at, rep) && ByPosition(at, rep, groups)
    ensures GroupsFit(f, groups)
  {
    hide ApartUnlessHit, ShapeAt;
    forall x, y | x in groups && y in groups && groups[x] == groups[y]
      ensures IsAllocAt(f, x) && IsAllocAt(f, y) && ShapeAt(f, x) == ShapeAt(f, y)
    {
      var i :| OwnedBy(at, rep, groups, x, i);
      var j :| OwnedBy(at, rep, groups, y, j);
      OwnersMatch(f, at, rep, i, j);
    }
  }

  /** One position holds one allocation. */
  lemma OwnersMatch(f: Func, at: map<nat, Pos>, rep: map<nat, nat>, i: nat, j: nat)
    requires SlotsSound(f, at, rep) && i in rep && j in rep && at[rep[i]] == at[rep[j]]
    ensures rep[i] == rep[j] && IsAllocAt(f, at[i]) && IsAllocAt(f, at[j]) && (i != j ==> ShapeAt(f, at[i]) == ShapeAt(f, at[j]))
  {
    assert AllocatedAt(f, rep[i], at[rep[i]]) && AllocatedAt(f, rep[j], at[rep[j]]);
  }

  /** Two allocations that are live at one point of some path, or of which one has no
      shared slot, have disjoint bytes, when no stray end cuts the lifetime of either
      short. */
  lemma LiveTogetherApart(f: Func, at: map<nat, Pos>, rep: map<nat, nat>, groups: map<Pos, Pos>, n: Needs, lay: FrameLayout, end: nat, i: nat, j: nat)
    requires SlotsSound(f, at, rep) && ByPosition(at, rep, groups) && FrameOk(f, groups, n, lay, end)
    requires i in at && j in at && i != j && AllocatedAt(f, i, at[i]) && AllocatedAt(f, j, at[j])
    requires (Overlap(f, i, j) && !StrayEndHits(f, i) && !StrayEndHits(f, j)) || i !in rep || j !in rep
    ensures Disjoint(f, lay, at[i], at[j])
  {
    hide Overlap, ShapeAt, StrayEndHits, ByPosition, PlacedOk;
    assert at[i] != at[j];
    if Shared(groups, at[i], at[j]) {
      SharedMeans(f, at, rep, groups, i, j);
    }
    PlacedApart(f, groups, lay.allocOff, lay.spillBase + n.spillBytes, end, at[i], at[j]);
  }

  lemma OwnPosition(f: Func, at: map<nat, Pos>, rep: map<nat, nat>, groups: map<Pos, Pos>, i: nat)
    requires SlotsSound(f, at, rep) && ByPosition(at, rep, groups) && i in at && AllocatedAt(f, i, at[i]) && at[i] in groups
    ensures PositionOf(at, rep, groups, i)
  {
    hide ApartUnlessHit, ShapeAt;
    var k :| OwnedBy(at, rep, groups, at[i], k);
    assert AllocatedAt(f, k, at[k]);
  }

  /** Allocations that share a slot are both grouped and apart, unless a stray end hits. */
  lemma SharedMeans(f: Func, at: map<nat, Pos>, rep: map<nat, nat>, groups: map<Pos, Pos>, i: nat, j: nat)
    requires SlotsSound(f, at, rep) && ByPosition(at, rep, groups)
    requires i in at && j in at && i != j && AllocatedAt(f, i, at[i]) && AllocatedAt(f, j, at[j]) && Shared(groups, at[i], at[j])
    ensures i in rep && j in rep && ApartUnlessHit(f, i, j)
  {
    hide ApartUnlessHit, ShapeAt;
    OwnPosition(f, at, rep, groups, i);
    OwnPosition(f, at, rep, groups, j);
    OwnersMatch(f, at, rep, i, j);
  }

  lemma PlacedApart(f: Func, groups: map<Pos, Pos>, offs: map<Pos, nat>, base: nat, end: nat, x: Pos, y: Pos)
    requires PlacedOk(f, groups, offs, base, end) && x in offs && y in offs && x != y && !Shared(groups, x, y)
    ensures IsAllocAt(f, x) && IsAllocAt(f, y)
    ensures offs[x] + ShapeAt(f, x).1 <= offs[y] || offs[y] + ShapeAt(f, y).1 <= offs[x]
  {
    hide ShapeAt;
    assert InArea(f, x, offs[x], base, end) && InArea(f, y, offs[y], base, end);
    assert Apart(f, offs, groups, x, y);
  }

  /** Two allocations' bytes do not meet. */
  ghost predicate Disjoint(f: Func, lay: FrameLayout, x: Pos, y: Pos) {
    && x in lay.allocOff && y in lay.allocOff && IsAllocAt(f, x) && IsAllocAt(f, y)
    && (lay.allocOff[x] + ShapeAt(f, x).1 <= lay.allocOff[y] || lay.allocOff[y] + ShapeAt(f, y).1 <= lay.allocOff[x])
  }

  method Positions(at: map<nat, Pos>, rep: map<nat, nat>) returns (groups: map<Pos, Pos>)
    requires forall i :: i in rep ==> i in at && rep[i] in at
    requires forall i, j :: i in rep && j in rep && i != j ==> at[i] != at[j]
    ensures ByPosition(at, rep, groups)
  {
    hide PositionOf;
    groups := map[];
    var rest := rep.Keys;
    while rest != {}
      invariant rest <= rep.Keys && forall i :: i in rep && i !in rest ==> PositionOf(at, rep, groups, i)
      invariant forall x :: x in groups ==> exists i :: OwnedBy(at, rep, groups, x, i) && i !in rest
      decreases rest
    {
      var i :| i in rest;
      ghost var before := groups;
      groups := groups[at[i] := at[rep[i]]];
      PositionAdded(at, rep, before, i);
      forall k | k in rep && k !in rest
        ensures PositionOf(at, rep, groups, k)
      {
        PositionKept(at, rep, before, i, k);
      }
      forall x | x in groups
        ensures exists k :: OwnedBy(at, rep, groups, x, k) && k !in rest - {i}
      {
        if x == at[i] {
          assert OwnedBy(at, rep, groups, x, i);
        } else {
          var k :| OwnedBy(at, rep, before, x, k) && k !in rest;
          PositionKept(at, rep, before, i, k);
          assert OwnedBy(at, rep, groups, x, k);
        }
      }
      rest := rest - {i};
    }
  }

  lemma PositionAdded(at: map<nat, Pos>, rep: map<nat, nat>, groups: map<Pos, Pos>, i: nat)
    requires i in rep && i in at && rep[i] in at
    ensures PositionOf(at, rep, groups[at[i] := at[rep[i]]], i)
  {
  }

  lemma PositionKept(at: map<nat, Pos>, rep: map<nat, nat>, groups: map<Pos, Pos>, i: nat, k: nat)
    requires PositionOf(at, rep, groups, k) && i in rep && i in at && rep[i] in at && (i != k ==> at[i] != at[k])
    ensures PositionOf(at, rep, groups[at[i] := at[rep[i]]], k)
  {
  }

  /** The frame of a function: its allocations grouped, then laid out. Allocations that
      are live together have disjoint bytes, as far as no stray end interferes. */
  method LayoutFrame(f: Func, preds: seq<seq<nat>>, rpo: seq<nat>, n: Needs)
    returns (lay: FrameLayout, at: map<nat, Pos>, ghost end: nat, ghost groups: map<Pos, Pos>)
    requires BitFlow.Graphy(f, preds, rpo, {})
    ensures FrameOk(f, groups, n, lay, end) && forall i: nat :: i in at <==> HasAlloc(f, i)
    ensures forall i, j :: i in at && j in at && i != j && Overlap(f, i, j) && !StrayEndHits(f, i) && !StrayEndHits(f, j) ==> Disjoint(f, lay, at[i], at[j])
    ensures forall b, k :: 0 <= b < |f.blocks| && 0 <= k < |f.blocks[b].instrs| && f.blocks[b].instrs[k].op.Alloc? ==>
              (b, k) in lay.allocOff &&
              match f.blocks[b].instrs[k].op.align
              case 4 => lay.allocOff[(b, k)] % 4 == 0
              case 8 => lay.allocOff[(b, k)] % 8 == 0
              case _ => lay.allocOff[(b, k)] % 16 == 0
    ensures GroupsFit(f, groups)
    ensures forall b, k, c, l :: (b, k) in lay.allocOff && (c, l) in lay.allocOff && lay.allocOff[(b, k)] == lay.allocOff[(c, l)] ==>
              && b < |f.blocks| && k < |f.blocks[b].instrs| && c < |f.blocks| && l < |f.blocks[c].instrs|
              && f.blocks[b].instrs[k].op.Alloc? && f.blocks[c].instrs[l].op.Alloc?
              && (f.blocks[b].instrs[k].op.align == 4 <==> f.blocks[c].instrs[l].op.align == 4)
              && (f.blocks[b].instrs[k].op.align == 8 <==> f.blocks[c].instrs[l].op.align == 8)
  {
    hide BitFlow.Graphy, Overlap, StrayEndHits, ShapeAt, FrameOk, HasAlloc, HasMark, SlotsSound, ByPosition, GroupsFit, Disjoint;
    var rep;
    ghost var marked;
    at, rep, marked := AllocaGroups(f, preds, rpo);
    SlotPositions(f, at, rep);
    var byPos := Positions(at, rep);
    GroupsOfSlots(f, at, rep, byPos);
    groups := byPos;
    lay, end := ComputeFrame(f, byPos, n);
    forall i, j | i in at && j in at && i != j && Overlap(f, i, j) && !StrayEndHits(f, i) && !StrayEndHits(f, j)
      ensures Disjoint(f, lay, at[i], at[j])
    {
      LiveTogetherApart(f, at, rep, byPos, n, lay, end, i, j);
    }
    forall b, k | 0 <= b < |f.blocks| && 0 <= k < |f.blocks[b].instrs| && f.blocks[b].instrs[k].op.Alloc?
      ensures (b, k) in lay.allocOff
      ensures lay.allocOff[(b, k)] % (if f.blocks[b].instrs[k].op.align == 4 then 4 else if f.blocks[b].instrs[k].op.align == 8 then 8 else 16) == 0
    {
      AllocationPlaced(f, groups, n, lay, end, b, k);
    }
    forall b, k, c, l | (b, k) in lay.allocOff && (c, l) in lay.allocOff && lay.allocOff[(b, k)] == lay.allocOff[(c, l)]
      ensures b < |f.blocks| && k < |f.blocks[b].instrs| && c < |f.blocks| && l < |f.blocks[c].instrs|
      ensures f.blocks[b].instrs[k].op.Alloc? && f.blocks[c].instrs[l].op.Alloc?
      ensures f.blocks[b].instrs[k].op.align == 4 <==> f.blocks[c].instrs[l].op.align == 4
      ensures f.blocks[b].instrs[k].op.align == 8 <==> f.blocks[c].instrs[l].op.align == 8
    {
      PlacedIsAlloc(f, groups, n, lay, end, b, k);
      PlacedIsAlloc(f, groups, n, lay, end, c, l);
      SharersMatch(f, groups, n, lay, end, b, k, c, l);
    }
  }

  lemma PlacedIsAlloc(f: Func, groups: map<Pos, Pos>, n: Needs, lay: FrameLayout, end: nat, b: nat, k: nat)
    requires FrameOk(f, groups, n, lay, end) && (b, k) in lay.allocOff
    ensures b < |f.blocks| && k < |f.blocks[b].instrs| && f.blocks[b].instrs[k].op.Alloc?
  {
    hide InArea;
    assert IsAllocAt(f, (b, k));
  }

  // ----- on the fields -----

  /** Every allocation is placed, aligned as it asks, to 16 if it asks for neither 4 nor
      8, with its bytes between the spill area and the end. */
  lemma AllocationPlaced(f: Func, groups: map<Pos, Pos>, n: Needs, lay: FrameLayout, end: nat, b: nat, k: nat)
    requires FrameOk(f, groups, n, lay, end)
    requires b < |f.blocks| && k < |f.blocks[b].instrs| && f.blocks[b].instrs[k].op.Alloc?
    ensures (b, k) in lay.allocOff
    ensures lay.allocOff[(b, k)] % (if f.blocks[b].instrs[k].op.align == 4 then 4 else if f.blocks[b].instrs[k].op.align == 8 then 8 else 16) == 0
    ensures 16 + 8 * n.calleeSaved + n.spillBytes <= lay.allocOff[(b, k)]
    ensures lay.allocOff[(b, k)] + f.blocks[b].instrs[k].op.size <= end <= lay.frame
  {
    var x := (b, k);
    assert IsAllocAt(f, x);
    assert InArea(f, x, lay.allocOff[x], lay.spillBase + n.spillBytes, end);
    ShapeIs(f.blocks[b].instrs[k].op);
  }

  /** The frame record takes sixteen bytes, each saved register eight; then come the
      spills and the allocations, then, in a variadic function, eight words for integer
      and eight quads for vector arguments; the frame is the least multiple of sixteen
      that holds all this above the outgoing area. */
  lemma AreasAre(f: Func, groups: map<Pos, Pos>, n: Needs, lay: FrameLayout, end: nat)
    requires FrameOk(f, groups, n, lay, end)
    ensures lay.spillBase == 16 + 8 * n.calleeSaved && lay.spillBase + n.spillBytes <= end && lay.outgoing == n.outgoing
    ensures n.variadic ==> end <= lay.gpSaveOff < end + 8 && lay.gpSaveOff % 8 == 0
    ensures n.variadic ==> lay.gpSaveOff + 64 <= lay.fpSaveOff < lay.gpSaveOff + 80 && lay.fpSaveOff % 16 == 0
    ensures lay.frame % 16 == 0
    ensures var top := n.outgoing + (if n.variadic then lay.fpSaveOff + 128 else end); top <= lay.frame < top + 16
  {
  }

  /** Two allocations' bytes, sizes as they ask, do not meet. */
  lemma DisjointBytes(f: Func, lay: FrameLayout, b: nat, k: nat, c: nat, l: nat)
    requires Disjoint(f, lay, (b, k), (c, l))
    ensures b < |f.blocks| && k < |f.blocks[b].instrs| && c < |f.blocks| && l < |f.blocks[c].instrs|
    ensures f.blocks[b].instrs[k].op.Alloc? && f.blocks[c].instrs[l].op.Alloc?
    ensures (b, k) in lay.allocOff && (c, l) in lay.allocOff
    ensures lay.allocOff[(b, k)] + f.blocks[b].instrs[k].op.size <= lay.allocOff[(c, l)]
            || lay.allocOff[(c, l)] + f.blocks[c].instrs[l].op.size <= lay.allocOff[(b, k)]
  {
    ShapeIs(f.blocks[b].instrs[k].op);
    ShapeIs(f.blocks[c].instrs[l].op);
  }

  /** r holds size, with less than one unit to spare; without a size, one unit. */
  ghost predicate Reserves(size: nat, unit: nat, r: nat) {
    if size > 0 then size <= r < size + unit else r == unit
  }

  /** Allocations at one place ask for one alignment, and round up to one size. */
  lemma SharersMatch(f: Func, groups: map<Pos, Pos>, n: Needs, lay: FrameLayout, end: nat, b: nat, k: nat, c: nat, l: nat)
    requires FrameOk(f, groups, n, lay, end) && GroupsFit(f, groups)
    requires b < |f.blocks| && k < |f.blocks[b].instrs| && f.blocks[b].instrs[k].op.Alloc?
    requires c < |f.blocks| && l < |f.blocks[c].instrs| && f.blocks[c].instrs[l].op.Alloc?
    requires (b, k) in lay.allocOff && (c, l) in lay.allocOff && lay.allocOff[(b, k)] == lay.allocOff[(c, l)]
    ensures f.blocks[b].instrs[k].op.align == 4 <==> f.blocks[c].instrs[l].op.align == 4
    ensures f.blocks[b].instrs[k].op.align == 8 <==> f.blocks[c].instrs[l].op.align == 8
    ensures var a := if f.blocks[b].instrs[k].op.align == 4 then 4 else if f.blocks[b].instrs[k].op.align == 8 then 8 else 16;
            exists r: nat :: r % a == 0 && Reserves(f.blocks[b].instrs[k].op.size, a, r) && Reserves(f.blocks[c].instrs[l].op.size, a, r)
  {
    hide InArea;
    var x, y := (b, k), (c, l);
    ShapeIs(f.blocks[b].instrs[k].op);
    ShapeIs(f.blocks[c].instrs[l].op);
    assert IsAllocAt(f, x) && IsAllocAt(f, y);
    if x != y {
      assert Apart(f, lay.allocOff, groups, x, y);
      assert ShapeAt(f, x).1 > 0 && ShapeAt(f, y).1 > 0;
      assert Shared(groups, x, y);
    }
    assert Reserves(f.blocks[b].instrs[k].op.size, ShapeAt(f, x).0, ShapeAt(f, x).1);
    assert Reserves(f.blocks[c].instrs[l].op.size, ShapeAt(f, y).0, ShapeAt(f, y).1);
  }

  lemma SlotPositions(f: Func, at: map<nat, Pos>, rep: map<nat, nat>)
    requires SlotsSound(f, at, rep)
    ensures forall i :: i in rep ==> i in at && rep[i] in at
    ensures forall i, j :: i in rep && j in rep && i != j ==> at[i] != at[j]
  {
    hide Overlap, ShapeAt;
    forall i, j | i in rep && j in rep && i != j
      ensures at[i] != at[j]
    {
      assert AllocatedAt(f, i, at[i]) && AllocatedAt(f, j, at[j]);
    }
  }
}
