/** Facts about 64-bit words. */
module Words {
  lemma OrHits(x: bv64, y: bv64, m: bv64)
    ensures (x | y) & m != 0 <==> x & m != 0 || y & m != 0
  {
  }

  lemma OrMisses(x: bv64, y: bv64, m: bv64)
    requires m & x == 0 && m & y == 0
    ensures m & (x | y) == 0
  {
  }

  lemma OrHolds(x: bv64, y: bv64, m: bv64)
    requires m & x == m
    ensures m & (x | y) == m
  {
  }

  lemma ClearLeaves(w: bv64, m: bv64, n: bv64)
    requires m & n == 0
    ensures w & !m & n == w & n && w & !m & m == 0
  {
  }

  lemma AgreeAt(x: bv64, y: bv64, m: bv64)
    requires m != 0 && m & (m - 1) == 0 && (x & m != 0 <==> y & m != 0)
    ensures ((x & !y) | (y & !x)) & m == 0
  {
  }

  lemma SameWord(x: bv64, y: bv64)
    ensures (x & !y) | (y & !x) == 0 ==> x == y
  {
  }

  lemma DropBit(w: bv64, m: bv64)
    requires m & (m - 1) == 0 && w & (m - 1) == 0 && w & m != 0
    ensures w & (w - 1) == w & !m
  {
  }
}

/** The word-array set of temporaries under the dataflow analyses (analysis/bitset.go):
    every operation is the set operation it stands for. */
module Bitset {
  import opened Graphs
  import opened Words

  // ----- word operations, named so that proofs can keep them closed -----

  function And(x: bv64, y: bv64): bv64 { x & y }

  function Or(x: bv64, y: bv64): bv64 { x | y }

  /** x with the bits of y cleared. */
  function Clear(x: bv64, y: bv64): bv64 { x & !y }

  function Less1(x: bv64): bv64 { x - 1 }

  function Shl1(x: bv64): bv64 { x << 1 }

  /** One shifted left by b. */
  function Mask(b: nat): bv64
    requires b < 64
  {
    if b == 0 then 1 else Shl1(Mask(b - 1))
  }

  predicate BitOf(w: bv64, b: nat)
    requires b < 64
  {
    And(w, Mask(b)) != 0
  }

  // ----- facts about words -----

  ghost predicate Single(m: bv64) {
    m != 0 && And(m, Less1(m)) == 0
  }

  lemma ShiftSingle(m: bv64)
    requires Single(m) && Shl1(m) != 0
    ensures Single(Shl1(m)) && Less1(Shl1(m)) == Or(Less1(m), m)
  {
  }

  lemma ShiftApart(x: bv64, y: bv64)
    requires And(x, y) == 0
    ensures And(Shl1(x), Shl1(y)) == 0
  {
  }

  lemma ShiftLow(x: bv64)
    ensures And(1, Shl1(x)) == 0 && Shl1(0) == 0
  {
  }

  lemma AndIdempotent(x: bv64, y: bv64)
    ensures And(x, x) == x && And(x, y) == And(y, x) && And(x, 0) == 0
  {
  }

  lemma OrHas(x: bv64, y: bv64, m: bv64)
    requires And(x, m) != 0 || And(y, m) != 0
    ensures And(Or(x, y), m) != 0
  {
    OrHits(x, y, m);
  }

  lemma OrHasOnly(x: bv64, y: bv64, m: bv64)
    requires And(x, m) == 0 && And(y, m) == 0
    ensures And(Or(x, y), m) == 0
  {
    OrHits(x, y, m);
  }

  lemma OrBits(x: bv64, y: bv64, m: bv64)
    ensures And(Or(x, y), m) != 0 <==> And(x, m) != 0 || And(y, m) != 0
  {
    hide And, Or;
    if And(x, m) != 0 || And(y, m) != 0 {
      OrHas(x, y, m);
    } else {
      OrHasOnly(x, y, m);
    }
  }

  lemma OrClear(x: bv64, y: bv64, m: bv64)
    requires And(m, x) == 0 && And(m, y) == 0
    ensures And(m, Or(x, y)) == 0
  {
    OrMisses(x, y, m);
  }

  lemma OrWithin(x: bv64, y: bv64, m: bv64)
    requires And(m, x) == m || And(m, y) == m
    ensures And(m, Or(x, y)) == m
  {
    if And(m, x) == m {
      OrHolds(x, y, m);
    } else {
      OrHolds(y, x, m);
      assert x | y == y | x;
    }
  }

  lemma ClearKeeps(w: bv64, m: bv64, n: bv64)
    requires And(m, n) == 0
    ensures And(Clear(w, m), n) == And(w, n)
  {
    ClearLeaves(w, m, n);
  }

  lemma ClearGone(w: bv64, m: bv64)
    ensures And(Clear(w, m), m) == 0
  {
    ClearLeaves(w, m, 0);
  }

  lemma AndWithin(w: bv64, x: bv64, m: bv64)
    requires And(w, m) == 0 && And(x, m) == x
    ensures And(w, x) == 0
  {
  }

  lemma LowestArith(w: bv64, m: bv64)
    requires Single(m) && And(w, Less1(m)) == 0 && And(w, m) != 0
    ensures And(w, Less1(w)) == Clear(w, m)
  {
    DropBit(w, m);
  }

  lemma TopWord(w: bv64, m: bv64)
    requires m == 0x8000_0000_0000_0000 && And(w, Less1(m)) == 0 && And(w, m) == 0
    ensures w == 0
  {
  }

  lemma NoBelowOne(w: bv64)
    ensures And(w, Less1(1)) == 0
  {
  }

  // ----- masks -----

  lemma TopMask()
    ensures Mask(63) == 0x8000_0000_0000_0000
  {
    assert Mask(8) == 0x100;
    assert Mask(16) == 0x1_0000;
    assert Mask(24) == 0x100_0000;
    assert Mask(32) == 0x1_0000_0000;
    assert Mask(40) == 0x100_0000_0000;
    assert Mask(48) == 0x1_0000_0000_0000;
    assert Mask(56) == 0x100_0000_0000_0000;
  }

  lemma {:induction false} MaskNonzero(b: nat)
    requires b < 64
    ensures Mask(b) != 0
    decreases 64 - b
  {
    hide Shl1;
    if b == 63 {
      TopMask();
    } else {
      MaskNonzero(b + 1);
      ShiftLow(Mask(b));
    }
  }

  lemma {:induction false} MaskSingle(b: nat)
    requires b < 64
    ensures Single(Mask(b))
  {
    hide Shl1;
    if b > 0 {
      MaskSingle(b - 1);
      MaskNonzero(b);
      ShiftSingle(Mask(b - 1));
    }
  }

  lemma {:induction false} MasksApart(a: nat, b: nat)
    requires a < b < 64
    ensures And(Mask(a), Mask(b)) == 0
  {
    hide Shl1, And;
    if a == 0 {
      ShiftLow(Mask(b - 1));
    } else {
      MasksApart(a - 1, b - 1);
      ShiftApart(Mask(a - 1), Mask(b - 1));
    }
  }

  lemma MasksMeet(a: nat, b: nat)
    requires a < 64 && b < 64
    ensures And(Mask(a), Mask(b)) == if a == b then Mask(a) else 0
  {
    hide Mask, And;
    AndIdempotent(Mask(a), Mask(b));
    if a < b {
      MasksApart(a, b);
    } else if b < a {
      MasksApart(b, a);
    }
  }

  lemma SetBit(w: bv64, a: nat, b: nat)
    requires a < 64 && b < 64
    ensures BitOf(Or(w, Mask(a)), b) <==> BitOf(w, b) || a == b
  {
    hide Mask, And, Or;
    OrBits(w, Mask(a), Mask(b));
    MaskNonzero(a);
    MasksMeet(a, b);
  }

  lemma ClearBit(w: bv64, a: nat, b: nat)
    requires a < 64 && b < 64
    ensures BitOf(Clear(w, Mask(a)), b) <==> BitOf(w, b) && a != b
  {
    hide Mask, And, Clear;
    MasksMeet(a, b);
    ClearGone(w, Mask(a));
    if a != b {
      ClearKeeps(w, Mask(a), Mask(b));
    }
  }

  /** All bits below b are clear. */
  predicate LowClear(w: bv64, b: nat)
    requires b < 64
  {
    And(w, Less1(Mask(b))) == 0
  }

  lemma {:induction false} MaskBelow(c: nat, b: nat)
    requires c < b < 64
    ensures And(Mask(c), Less1(Mask(b))) == Mask(c)
  {
    hide And, Or, Less1, Shl1, Single;
    var m := Mask(b - 1);
    MaskSingle(b - 1);
    MaskNonzero(b);
    ShiftSingle(m);
    if c < b - 1 {
      MaskBelow(c, b - 1);
    }
    AndIdempotent(m, m);
    OrWithin(Less1(m), m, Mask(c));
  }

  lemma LowBitsClear(w: bv64, b: nat, c: nat)
    requires c < b < 64 && LowClear(w, b)
    ensures !BitOf(w, c)
  {
    hide Mask, And, Less1;
    MaskBelow(c, b);
    AndWithin(w, Mask(c), Less1(Mask(b)));
  }

  lemma NextLow(w: bv64, b: nat)
    requires b < 63 && LowClear(w, b) && !BitOf(w, b)
    ensures LowClear(w, b + 1)
  {
    hide And, Or, Less1, Shl1, Single;
    MaskSingle(b);
    MaskNonzero(b + 1);
    ShiftSingle(Mask(b));
    OrClear(Less1(Mask(b)), Mask(b), w);
  }

  /** Clearing the lowest set bit. */
  lemma DropLowest(w: bv64, b: nat)
    requires b < 64 && LowClear(w, b) && BitOf(w, b)
    ensures And(w, Less1(w)) == Clear(w, Mask(b))
  {
    hide Mask, And, Less1, Clear, Single;
    MaskSingle(b);
    LowestArith(w, Mask(b));
  }

  method TrailingZeros(w: bv64) returns (b: nat)
    requires w != 0
    ensures b < 64 && LowClear(w, b) && BitOf(w, b)
  {
    hide And, Less1, Mask, BitOf, LowClear;
    b := 0;
    StartLow(w);
    while b < 63 && !BitOf(w, b)
      invariant 0 <= b < 64 && LowClear(w, b)
    {
      NextLow(w, b);
      b := b + 1;
    }
    if b == 63 {
      LastBit(w);
    }
  }

  lemma StartLow(w: bv64)
    ensures LowClear(w, 0)
  {
    NoBelowOne(w);
  }

  lemma LastBit(w: bv64)
    requires LowClear(w, 63) && w != 0
    ensures BitOf(w, 63)
  {
    hide And, Less1;
    TopMask();
    if And(w, Mask(63)) == 0 {
      TopWord(w, Mask(63));
    }
  }

  // ----- words as sets -----

  /** Element i is in the set these words hold. */
  predicate HasBit(ws: seq<bv64>, i: nat) {
    i / 64 < |ws| && BitOf(ws[i / 64], i % 64)
  }

  ghost function Elements(ws: seq<bv64>): (s: set<nat>)
    ensures forall i: nat :: i in s <==> HasBit(ws, i)
  {
    set i | i in Upto(64 * |ws|) && HasBit(ws, i)
  }

  lemma SameWordBits(i: nat, j: nat)
    ensures i / 64 == j / 64 && i % 64 == j % 64 <==> i == j
  {
  }

  /** Changing one word changes membership only in that word. */
  lemma WordChanged(ws: seq<bv64>, k: nat, w: bv64, i: nat)
    requires k < |ws|
    ensures HasBit(ws[k := w], i) <==> if i / 64 == k then BitOf(w, i % 64) else HasBit(ws, i)
  {
    hide BitOf;
  }

  lemma WordKept(ws: seq<bv64>, k: nat, i: nat)
    requires k < |ws| && i / 64 == k
    ensures HasBit(ws, i) <==> BitOf(ws[k], i % 64)
  {
    hide BitOf;
  }

  /** The words ws with one changed to w. */
  ghost predicate OneWord(ws: seq<bv64>, k: nat, w: bv64, next: seq<bv64>) {
    k < |ws| && next == ws[k := w]
  }

  lemma WithBitAt(ws: seq<bv64>, id: nat, w: bv64, next: seq<bv64>, i: nat)
    requires OneWord(ws, id / 64, w, next) && forall b: nat :: b < 64 ==> (BitOf(w, b) <==> BitOf(ws[id / 64], b) || b == id % 64)
    ensures HasBit(next, i) <==> HasBit(ws, i) || i == id
  {
    hide BitOf, HasBit;
    SameWordBits(i, id);
    WordChanged(ws, id / 64, w, i);
    if i / 64 == id / 64 {
      WordKept(ws, id / 64, i);
    }
  }

  lemma WithoutBitAt(ws: seq<bv64>, id: nat, w: bv64, next: seq<bv64>, i: nat)
    requires OneWord(ws, id / 64, w, next) && forall b: nat :: b < 64 ==> (BitOf(w, b) <==> BitOf(ws[id / 64], b) && b != id % 64)
    ensures HasBit(next, i) <==> HasBit(ws, i) && i != id
  {
    hide BitOf, HasBit;
    SameWordBits(i, id);
    WordChanged(ws, id / 64, w, i);
    if i / 64 == id / 64 {
      WordKept(ws, id / 64, i);
    }
  }

  lemma SetBitWord(w: bv64, a: nat)
    requires a < 64
    ensures forall b: nat :: b < 64 ==> (BitOf(Or(w, Mask(a)), b) <==> BitOf(w, b) || b == a)
  {
    hide BitOf, Mask, Or;
    forall b: nat | b < 64
      ensures BitOf(Or(w, Mask(a)), b) <==> BitOf(w, b) || b == a
    {
      SetBit(w, a, b);
    }
  }

  lemma ClearBitWord(w: bv64, a: nat)
    requires a < 64
    ensures forall b: nat :: b < 64 ==> (BitOf(Clear(w, Mask(a)), b) <==> BitOf(w, b) && b != a)
  {
    hide BitOf, Mask, Clear;
    forall b: nat | b < 64
      ensures BitOf(Clear(w, Mask(a)), b) <==> BitOf(w, b) && b != a
    {
      ClearBit(w, a, b);
    }
  }

  lemma WithBit(ws: seq<bv64>, id: nat, w: bv64, next: seq<bv64>)
    requires OneWord(ws, id / 64, w, next) && w == Or(ws[id / 64], Mask(id % 64))
    ensures Elements(next) == Elements(ws) + {id}
  {
    SetBitWord(ws[id / 64], id % 64);
    WithBitAll(ws, id, w, next);
  }

  lemma WithBitAll(ws: seq<bv64>, id: nat, w: bv64, next: seq<bv64>)
    requires OneWord(ws, id / 64, w, next) && forall b: nat :: b < 64 ==> (BitOf(w, b) <==> BitOf(ws[id / 64], b) || b == id % 64)
    ensures Elements(next) == Elements(ws) + {id}
  {
    hide BitOf, HasBit;
    forall i: nat
      ensures i in Elements(next) <==> i in Elements(ws) + {id}
    {
      WithBitAt(ws, id, w, next, i);
    }
  }

  lemma WithoutBit(ws: seq<bv64>, id: nat, w: bv64, next: seq<bv64>)
    requires OneWord(ws, id / 64, w, next) && w == Clear(ws[id / 64], Mask(id % 64))
    ensures Elements(next) == Elements(ws) - {id}
  {
    ClearBitWord(ws[id / 64], id % 64);
    WithoutBitAll(ws, id, w, next);
  }

  lemma WithoutBitAll(ws: seq<bv64>, id: nat, w: bv64, next: seq<bv64>)
    requires OneWord(ws, id / 64, w, next) && forall b: nat :: b < 64 ==> (BitOf(w, b) <==> BitOf(ws[id / 64], b) && b != id % 64)
    ensures Elements(next) == Elements(ws) - {id}
  {
    hide BitOf, HasBit;
    forall i: nat
      ensures i in Elements(next) <==> i in Elements(ws) - {id}
    {
      WithoutBitAt(ws, id, w, next, i);
    }
  }

  lemma UnionBits(a: seq<bv64>, b: seq<bv64>, r: seq<bv64>)
    requires |a| == |b| == |r| && forall k :: 0 <= k < |r| ==> r[k] == Or(a[k], b[k])
    ensures Elements(r) == Elements(a) + Elements(b)
  {
    hide Mask, Or, And;
    forall i: nat
      ensures HasBit(r, i) <==> HasBit(a, i) || HasBit(b, i)
    {
      if i / 64 < |r| {
        OrBits(a[i / 64], b[i / 64], Mask(i % 64));
      }
    }
  }

  lemma NoBits(ws: seq<bv64>)
    requires forall k :: 0 <= k < |ws| ==> ws[k] == 0
    ensures Elements(ws) == {}
  {
    hide Mask, And;
    forall i: nat
      ensures !HasBit(ws, i)
    {
      if i / 64 < |ws| {
        AndIdempotent(Mask(i % 64), 0);
      }
    }
  }

  lemma WordBitsDiffer(x: bv64, y: bv64, b: nat)
    requires b < 64 && forall c: nat :: c < 64 ==> (BitOf(x, c) <==> BitOf(y, c))
    ensures LowClear(Or(Clear(x, y), Clear(y, x)), b)
    decreases b
  {
    hide BitOf, Mask, LowClear, Or, Clear;
    var d := Or(Clear(x, y), Clear(y, x));
    if b == 0 {
      StartLow(d);
    } else {
      WordBitsDiffer(x, y, b - 1);
      DifferBit(x, y, b - 1);
      NextLow(d, b - 1);
    }
  }

  lemma DifferBit(x: bv64, y: bv64, c: nat)
    requires c < 64 && (BitOf(x, c) <==> BitOf(y, c))
    ensures !BitOf(Or(Clear(x, y), Clear(y, x)), c)
  {
    hide Mask, Single;
    MaskSingle(c);
    XorBit(x, y, Mask(c));
  }

  lemma XorBit(x: bv64, y: bv64, m: bv64)
    requires Single(m) && (And(x, m) != 0 <==> And(y, m) != 0)
    ensures And(Or(Clear(x, y), Clear(y, x)), m) == 0
  {
    AgreeAt(x, y, m);
  }

  /** Words with the same bits are the same word. */
  lemma SameBits(x: bv64, y: bv64)
    requires forall c: nat :: c < 64 ==> (BitOf(x, c) <==> BitOf(y, c))
    ensures x == y
  {
    hide BitOf, Mask, LowClear, Or, Clear;
    WordBitsDiffer(x, y, 63);
    DifferBit(x, y, 63);
    var d := Or(Clear(x, y), Clear(y, x));
    if d != 0 {
      LastBit(d);
    }
    NoDifference(x, y);
  }

  lemma NoDifference(x: bv64, y: bv64)
    ensures Or(Clear(x, y), Clear(y, x)) == 0 ==> x == y
  {
    SameWord(x, y);
  }

  lemma SameElements(a: seq<bv64>, b: seq<bv64>)
    requires |a| == |b|
    ensures a == b <==> Elements(a) == Elements(b)
  {
    hide BitOf;
    if Elements(a) == Elements(b) {
      forall k | 0 <= k < |a|
        ensures a[k] == b[k]
      {
        forall c: nat | c < 64
          ensures BitOf(a[k], c) <==> BitOf(b[k], c)
        {
          var i := 64 * k + c;
          assert i / 64 == k && i % 64 == c;
          assert i in Elements(a) <==> i in Elements(b);
        }
        SameBits(a[k], b[k]);
      }
    }
  }

  // ----- listing a word -----

  /** The set bits of a word, ascending: the lowest is taken off until none is left. */
  method BitsOf(w0: bv64) returns (bits: seq<nat>)
    ensures forall b :: b in bits ==> b < 64 && BitOf(w0, b)
    ensures forall b: nat :: b < 64 && BitOf(w0, b) ==> b in bits
    ensures forall i, j :: 0 <= i < j < |bits| ==> bits[i] < bits[j]
  {
    hide BitOf, Mask, And, Less1, LowClear, Clear;
    bits := [];
    var w := w0;
    var low := 0;
    while w != 0
      invariant low <= 64 && (forall b: nat :: b < 64 && BitOf(w, b) ==> low <= b)
      invariant forall b: nat :: b < 64 ==> (BitOf(w0, b) <==> BitOf(w, b) || b in bits)
      invariant forall b :: b in bits ==> b < low
      invariant forall i, j :: 0 <= i < j < |bits| ==> bits[i] < bits[j]
      decreases 64 - low
    {
      var b := TrailingZeros(w);
      assert forall i :: 0 <= i < |bits| ==> bits[i] in bits;
      ghost var old_ := w;
      DropLowest(w, b);
      bits := bits + [b];
      w := And(w, Less1(w));
      forall c: nat | c < 64
        ensures BitOf(w, c) <==> BitOf(old_, c) && c != b
        ensures BitOf(w, c) ==> b < c
      {
        ClearBit(old_, b, c);
        if c < b {
          LowBitsClear(old_, b, c);
        }
      }
      low := b + 1;
    }
    forall b: nat | b < 64
      ensures !BitOf(w, b)
    {
      ZeroWord(b);
    }
  }

  lemma ZeroWord(b: nat)
    requires b < 64
    ensures !BitOf(0, b)
  {
    AndIdempotent(Mask(b), 0);
  }

  // ----- the class -----

  class TempSet {
    const words: array<bv64>

    ghost function Elems(): set<nat>
      reads words
    {
      Elements(words[..])
    }

    constructor (n: nat)
      ensures fresh(words) && words.Length == (n + 63) / 64 && Elems() == {}
    {
      words := new bv64[(n + 63) / 64](_ => 0);
      new;
      NoBits(words[..]);
    }

    method Has(id: nat) returns (has: bool)
      requires id / 64 < words.Length
      ensures has <==> id in Elems()
    {
      has := BitOf(words[id / 64], id % 64);
    }

    method Add(id: nat) returns (changed: bool)
      requires id / 64 < words.Length
      modifies words
      ensures Elems() == old(Elems()) + {id} && changed == (id !in old(Elems()))
    {
      hide BitOf, Mask, Or;
      ghost var before := words[..];
      if BitOf(words[id / 64], id % 64) {
        assert HasBit(before, id);
        return false;
      }
      assert !HasBit(before, id);
      var w := Or(words[id / 64], Mask(id % 64));
      words[id / 64] := w;
      assert OneWord(before, id / 64, w, words[..]);
      WithBit(before, id, w, words[..]);
      changed := true;
    }

    method Remove(id: nat)
      requires id / 64 < words.Length
      modifies words
      ensures Elems() == old(Elems()) - {id}
    {
      hide BitOf, Mask, Clear;
      ghost var before := words[..];
      var w := Clear(words[id / 64], Mask(id % 64));
      words[id / 64] := w;
      assert OneWord(before, id / 64, w, words[..]);
      WithoutBit(before, id, w, words[..]);
    }

    method Union(o: TempSet) returns (changed: bool)
      requires o.words.Length == words.Length
      modifies words
      ensures Elems() == old(Elems()) + old(o.Elems()) && changed == !(old(o.Elems()) <= old(Elems()))
    {
      hide HasBit, Or;
      ghost var a, b := words[..], o.words[..];
      changed := false;
      for i := 0 to words.Length
        invariant |a| == |b| == words.Length == o.words.Length
        invariant forall k :: 0 <= k < i ==> words[k] == Or(a[k], b[k])
        invariant forall k :: i <= k < words.Length ==> words[k] == a[k] && o.words[k] == b[k]
        invariant changed <==> exists k :: 0 <= k < i && words[k] != a[k]
      {
        var before := words[i];
        words[i] := Or(words[i], o.words[i]);
        if words[i] != before {
          changed := true;
        }
      }
      UnionBits(a, b, words[..]);
      SameElements(a, words[..]);
      assert changed <==> words[..] != a;
    }

    method SetTo(o: TempSet)
      requires o.words.Length == words.Length
      modifies words
      ensures Elems() == old(o.Elems())
    {
      ghost var b := o.words[..];
      for i := 0 to words.Length
        invariant |b| == o.words.Length == words.Length
        invariant forall k :: 0 <= k < i ==> words[k] == b[k]
        invariant forall k :: i <= k < words.Length ==> o.words[k] == b[k]
      {
        words[i] := o.words[i];
      }
      assert words[..] == b;
    }

    method Equal(o: TempSet) returns (same: bool)
      ensures words.Length == o.words.Length ==> (same <==> Elems() == o.Elems())
      ensures words.Length != o.words.Length ==> !same
    {
      if words.Length != o.words.Length {
        return false;
      }
      SameElements(words[..], o.words[..]);
      for i := 0 to words.Length
        invariant forall k :: 0 <= k < i ==> words[k] == o.words[k]
      {
        if words[i] != o.words[i] {
          assert words[..][i] != o.words[..][i];
          return false;
        }
      }
      assert words[..] == o.words[..];
      same := true;
    }

    /** The elements in ascending order. */
    method Members() returns (out: seq<nat>)
      ensures (forall i :: i in out <==> i in Elems()) && forall i, j :: 0 <= i < j < |out| ==> out[i] < out[j]
    {
      hide BitOf;
      out := [];
      for wi := 0 to words.Length
        invariant forall i :: i in out <==> i in Elems() && i / 64 < wi
        invariant forall i, j :: 0 <= i < j < |out| ==> out[i] < out[j]
      {
        var bits := BitsOf(words[wi]);
        out := AppendWord(words[..], wi, out, bits);
      }
      assert forall i :: i in Elems() ==> i / 64 < words.Length;
    }

    /** The number of elements. */
    method Len() returns (n: nat)
      ensures n == |Elems()|
    {
      hide BitOf;
      n := 0;
      var out: seq<nat> := [];
      for wi := 0 to words.Length
        invariant n == |out| && forall i :: i in out <==> i in Elems() && i / 64 < wi
        invariant forall i, j :: 0 <= i < j < |out| ==> out[i] < out[j]
      {
        var bits := BitsOf(words[wi]);
        out := AppendWord(words[..], wi, out, bits);
        n := n + |bits|;
      }
      assert forall i :: i in Elems() ==> i / 64 < words.Length;
      AscendingCount(out, Elems());
    }
  }

  /** One word's elements after those of the words before it. */
  method AppendWord(ghost ws: seq<bv64>, wi: nat, out0: seq<nat>, bits: seq<nat>) returns (out: seq<nat>)
    requires wi < |ws| && (forall i :: i in out0 <==> i in Elements(ws) && i / 64 < wi) && forall i, j :: 0 <= i < j < |out0| ==> out0[i] < out0[j]
    requires (forall b :: b in bits <==> 0 <= b < 64 && BitOf(ws[wi], b)) && forall i, j :: 0 <= i < j < |bits| ==> bits[i] < bits[j]
    ensures (forall i :: i in out <==> i in Elements(ws) && i / 64 < wi + 1) && forall i, j :: 0 <= i < j < |out| ==> out[i] < out[j]
    ensures |out| == |out0| + |bits|
  {
    hide BitOf, HasBit;
    out := out0;
    assert forall k :: 0 <= k < |bits| ==> bits[k] in bits;
    forall k | 0 <= k < |out0|
      ensures out0[k] < 64 * wi
    {
      assert out0[k] in out0;
      assert out0[k] / 64 < wi;
    }
    for k := 0 to |bits|
      invariant |out| == |out0| + k && out[..|out0|] == out0
      invariant forall i :: 0 <= i < k ==> out[|out0| + i] == 64 * wi + bits[i]
    {
      out := out + [64 * wi + bits[k]];
    }
    var more := out[|out0|..];
    assert out == out0 + more && |more| == |bits| && forall k :: 0 <= k < |more| ==> more[k] == 64 * wi + bits[k];
    forall i, j | 0 <= i < j < |out|
      ensures out[i] < out[j]
    {
      if i >= |out0| {
        assert out[i] == more[i - |out0|] && out[j] == more[j - |out0|];
      } else if j >= |out0| {
        assert out[i] == out0[i] && out[j] == more[j - |out0|];
      }
    }
    forall i: nat
      ensures i in out <==> i in Elements(ws) && i / 64 < wi + 1
    {
      WordListed(ws, wi, bits, more, i);
    }
  }

  lemma WordListed(ws: seq<bv64>, wi: nat, bits: seq<nat>, more: seq<nat>, i: nat)
    requires wi < |ws| && |more| == |bits| && (forall k :: 0 <= k < |more| ==> more[k] == 64 * wi + bits[k])
    requires forall b :: b in bits <==> 0 <= b < 64 && BitOf(ws[wi], b)
    ensures i in more <==> i in Elements(ws) && i / 64 == wi
  {
    hide BitOf;
    if i / 64 == wi && i % 64 in bits {
      var k :| 0 <= k < |bits| && bits[k] == i % 64;
      assert more[k] == i;
    }
    if i in more {
      var k :| 0 <= k < |more| && more[k] == i;
      assert bits[k] in bits;
      assert i / 64 == wi && i % 64 == bits[k];
    }
  }

  lemma {:induction false} AscendingCount(out: seq<nat>, s: set<nat>)
    requires (forall i :: i in out <==> i in s) && forall i, j :: 0 <= i < j < |out| ==> out[i] < out[j]
    ensures |out| == |s|
    decreases |out|
  {
    if out == [] {
      assert s == {};
    } else {
      var last := out[|out| - 1];
      var init := out[..|out| - 1];
      assert out == init + [last];
      AscendingCount(init, s - {last});
    }
  }
}
