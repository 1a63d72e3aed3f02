/** Unsigned 64-bit integers to floats and back through the signed instructions
    (amd64/xasm_float.go), rounding to nearest, ties to even, as section 4.3.1 of IEEE
    754-2019 defines it. */
module FloatConv {

  function Pow2(n: nat): (r: nat)
    ensures r >= 1
  {
    if n == 0 then 1 else 2 * Pow2(n - 1)
  }

  lemma {:induction false} Pow2Adds(a: nat, b: nat)
    ensures Pow2(a + b) == Pow2(a) * Pow2(b)
  {
    if a > 0 {
      Pow2Adds(a - 1, b);
      calc {
        Pow2(a + b);
        2 * Pow2(a - 1 + b);
        2 * (Pow2(a - 1) * Pow2(b));
        (2 * Pow2(a - 1)) * Pow2(b);
        Pow2(a) * Pow2(b);
      }
    }
  }

  lemma {:induction false} Pow2Grows(a: nat, b: nat)
    requires a <= b
    ensures Pow2(a) <= Pow2(b)
  {
    if a < b {
      Pow2Grows(a, b - 1);
    }
  }

  /** The bit length. */
  function Bits(x: nat): (n: nat) {
    if x == 0 then 0 else 1 + Bits(x / 2)
  }

  lemma {:induction false} BitsBound(x: nat)
    requires x > 0
    ensures Bits(x) >= 1 && Pow2(Bits(x) - 1) <= x < Pow2(Bits(x))
  {
    if x > 1 {
      BitsBound(x / 2);
    } else {
      assert Bits(1) == 1 + Bits(0);
    }
  }

  lemma BitsAbove(x: nat, n: nat)
    requires x >= Pow2(n)
    ensures Bits(x) > n
  {
    BitsBound(x);
    if Bits(x) <= n {
      Pow2Grows(Bits(x), n);
    }
  }

  // ----- division, named so that proofs can keep products closed -----

  function Times(n: nat, u: nat): nat { n * u }

  function Quot(x: nat, u: nat): nat
    requires u > 0
  {
    x / u
  }

  function Rem(x: nat, u: nat): (r: nat)
    requires u > 0
    ensures r < u
  {
    x % u
  }

  lemma QuotRem(x: nat, u: nat)
    requires u > 0
    ensures x == Times(Quot(x, u), u) + Rem(x, u)
  {
  }

  lemma TimesOrder(a: nat, b: nat, u: nat)
    requires a <= b
    ensures Times(a, u) <= Times(b, u)
  {
    assert (b - a) * u >= 0;
  }

  lemma TimesNext(n: nat, u: nat)
    ensures Times(n + 1, u) == Times(n, u) + u
  {
  }

  lemma TimesDouble(n: nat, u: nat)
    ensures Times(n, 2 * u) == 2 * Times(n, u) && Times(2 * n, u) == 2 * Times(n, u)
  {
  }

  lemma TimesTimes(a: nat, b: nat, c: nat)
    ensures Times(a, Times(b, c)) == Times(Times(a, b), c)
  {
  }

  lemma QuotUnique(q: nat, r: nat, u: nat)
    requires r < u
    ensures Quot(Times(q, u) + r, u) == q && Rem(Times(q, u) + r, u) == r
  {
    hide Times, Quot, Rem;
    var x := Times(q, u) + r;
    QuotRem(x, u);
    if Quot(x, u) < q {
      TimesNext(Quot(x, u), u);
      TimesOrder(Quot(x, u) + 1, q, u);
    } else if Quot(x, u) > q {
      TimesNext(q, u);
      TimesOrder(q + 1, Quot(x, u), u);
    }
  }

  lemma QuotBounds(x: nat, u: nat, lo: nat, hi: nat)
    requires u > 0 && Times(lo, u) <= x < Times(hi, u)
    ensures lo <= Quot(x, u) < hi
  {
    hide Times, Quot, Rem;
    QuotRem(x, u);
    if Quot(x, u) < lo {
      TimesNext(Quot(x, u), u);
      TimesOrder(Quot(x, u) + 1, lo, u);
    }
    if Quot(x, u) >= hi {
      TimesOrder(hi, Quot(x, u), u);
    }
  }

  // ----- rounding -----

  /** How many low bits a p-bit significand cannot keep. */
  function Shift(p: nat, x: nat): nat {
    if Bits(x) <= p then 0 else Bits(x) - p
  }

  predicate RoundsUp(q: nat, r: nat, unit: nat) {
    2 * r > unit || (2 * r == unit && q % 2 == 1)
  }

  /** The multiple of the unit that x rounds to. */
  function Nearest(x: nat, unit: nat): nat
    requires unit > 0
  {
    Quot(x, unit) + (if RoundsUp(Quot(x, unit), Rem(x, unit), unit) then 1 else 0)
  }

  /** x rounded to a p-bit significand. */
  function Round(p: nat, x: nat): nat {
    Times(Nearest(x, Pow2(Shift(p, x))), Pow2(Shift(p, x)))
  }

  /** A value with a p-bit significand. */
  ghost predicate Representable(p: nat, z: nat) {
    exists m: nat, e: nat :: IsFloat(p, z, m, e)
  }

  ghost predicate IsFloat(p: nat, z: nat, m: nat, e: nat) {
    m < Pow2(p) && z == Times(m, Pow2(e))
  }

  function Dist(a: int, b: int): nat {
    if a < b then b - a else a - b
  }

  lemma Pow2Times(a: nat, b: nat)
    ensures Pow2(a + b) == Times(Pow2(a), Pow2(b))
  {
    Pow2Adds(a, b);
  }

  /** The significand of a value too long for p bits has exactly p bits. */
  lemma TopBits(p: nat, x: nat, u: nat)
    requires Bits(x) > p >= 1 && u == Pow2(Shift(p, x))
    ensures Pow2(p - 1) <= Quot(x, u) < Pow2(p)
  {
    hide Times, Quot;
    BitsBound(x);
    Pow2Times(p, Shift(p, x));
    Pow2Times(p - 1, Shift(p, x));
    QuotBounds(x, u, Pow2(p - 1), Pow2(p));
  }

  /** No representable value lies strictly between neighbouring multiples of the unit. */
  lemma NoneBetween(p: nat, x: nat, z: nat, u: nat)
    requires p >= 1 && Representable(p, z) && u == Pow2(Shift(p, x))
    ensures z <= Times(Quot(x, u), u) || z >= Times(Quot(x, u) + 1, u)
  {
    hide Times, Quot, Pow2;
    var s := Shift(p, x);
    var m: nat, e: nat :| IsFloat(p, z, m, e);
    if e >= s {
      Pow2Times(e - s, s);
      TimesTimes(m, Pow2(e - s), u);
      var n := Times(m, Pow2(e - s));
      if n <= Quot(x, u) {
        TimesOrder(n, Quot(x, u), u);
      } else {
        TimesOrder(Quot(x, u) + 1, n, u);
      }
    } else {
      TopBits(p, x, u);
      SmallFloat(p, m, e, Quot(x, u), s);
    }
  }

  lemma SmallFloat(p: nat, m: nat, e: nat, q: nat, s: nat)
    requires p >= 1 && m < Pow2(p) && e < s && q >= Pow2(p - 1)
    ensures Times(m, Pow2(e)) <= Times(q, Pow2(s))
  {
    hide Times;
    assert Pow2(p) == 2 * Pow2(p - 1) && Pow2(s) == 2 * Pow2(s - 1);
    TimesOrder(m, 2 * q, Pow2(e));
    Pow2Grows(e, s - 1);
    TimesDouble(q, Pow2(e));
    TimesDouble(q, Pow2(s - 1));
    TimesOrderRight(q, Pow2(e), Pow2(s - 1));
  }

  lemma TimesOrderRight(n: nat, a: nat, b: nat)
    requires a <= b
    ensures Times(n, a) <= Times(n, b)
  {
    assert n * (b - a) >= 0;
  }

  /** Rounding gives a nearest representable value. */
  lemma RoundIsNearest(p: nat, x: nat, z: nat)
    requires p >= 1 && Representable(p, z)
    ensures Dist(x, Round(p, x)) <= Dist(x, z)
  {
    hide Times, Quot, Rem, Representable, Pow2, Shift;
    var u := Pow2(Shift(p, x));
    QuotRem(x, u);
    NoneBetween(p, x, z, u);
    TimesNext(Quot(x, u), u);
  }

  /** Of two nearest values, rounding takes the one with the even significand. */
  lemma TiesToEven(p: nat, x: nat, z: nat)
    requires p >= 1 && Representable(p, z) && z != Round(p, x) && Dist(x, z) == Dist(x, Round(p, x))
    ensures Nearest(x, Pow2(Shift(p, x))) % 2 == 0
  {
    hide Times, Quot, Rem, Representable, Pow2, Shift;
    var u := Pow2(Shift(p, x));
    QuotRem(x, u);
    NoneBetween(p, x, z, u);
    TimesNext(Quot(x, u), u);
  }

  lemma RoundIsRepresentable(p: nat, x: nat)
    requires p >= 1
    ensures Representable(p, Round(p, x))
  {
    hide Times, Quot, Rem;
    var s := Shift(p, x);
    var u := Pow2(s);
    var n := Nearest(x, u);
    if s == 0 {
      WholeUnit(x);
      BitsFit(p, x);
      assert IsFloat(p, Round(p, x), n, 0);
    } else {
      TopBits(p, x, u);
      if n < Pow2(p) {
        assert IsFloat(p, Round(p, x), n, s);
      } else {
        assert n == 2 * Pow2(p - 1) && Pow2(s + 1) == 2 * u;
        TimesDouble(Pow2(p - 1), u);
        assert IsFloat(p, Round(p, x), Pow2(p - 1), s + 1);
      }
    }
  }

  lemma WholeUnit(x: nat)
    ensures Nearest(x, 1) == x && Pow2(0) == 1
  {
  }

  lemma BitsFit(p: nat, x: nat)
    requires Bits(x) <= p
    ensures x < Pow2(p)
  {
    if x > 0 {
      BitsBound(x);
      Pow2Grows(Bits(x), p);
    }
  }

  /** A representable value is left alone. */
  lemma RoundExact(p: nat, z: nat)
    requires p >= 1 && Representable(p, z)
    ensures Round(p, z) == z
  {
    RoundIsNearest(p, z, z);
  }

  // ----- unsigned to float -----

  /** The halved value with the dropped bit put back. */
  function Sticky(x: nat): nat {
    x / 2 + (if x % 2 == 1 && x / 2 % 2 == 0 then 1 else 0)
  }

  lemma StickyBits(x: nat)
    requires x >= 2
    ensures Bits(Sticky(x)) == Bits(x) - 1
  {
    var h := Sticky(x);
    assert h / 2 == x / 2 / 2 && h >= 1;
    assert Bits(h) == 1 + Bits(h / 2) && Bits(x / 2) == 1 + Bits(x / 2 / 2);
  }

  lemma EvenMultiple(q: nat, u: nat)
    requires u % 2 == 0
    ensures Times(q, u) % 2 == 0
  {
    TimesDouble(q, u / 2);
  }

  lemma StickyAdds(a: nat, r: nat)
    requires a % 2 == 0
    ensures Sticky(2 * a + r) == a + Sticky(r)
  {
    assert (2 * a + r) / 2 == a + r / 2;
  }

  lemma StickySmall(r: nat, u: nat)
    requires r < 2 * u && u % 2 == 0
    ensures Sticky(r) < u
  {
  }

  lemma StickyRoundsAlike(q: nat, r: nat, u: nat)
    requires u > 0 && u % 4 == 0 && r < 2 * u
    ensures RoundsUp(q, Sticky(r), u) == RoundsUp(q, r, 2 * u)
  {
  }

  /** Halving splits at the unit: the quotient is the same and the remainder is halved. */
  lemma StickySplit(x: nat, u: nat, q: nat, r: nat)
    requires u > 0 && u % 2 == 0 && r < 2 * u && x == Times(q, 2 * u) + r
    ensures Quot(Sticky(x), u) == q && Rem(Sticky(x), u) == Sticky(r)
  {
    hide Sticky, Times, Quot, Rem;
    var a := Times(q, u);
    TimesDouble(q, u);
    EvenMultiple(q, u);
    StickyAdds(a, r);
    StickySmall(r, u);
    QuotUnique(q, Sticky(r), u);
  }

  lemma HalvedUnit(x: nat, u: nat)
    requires u > 0 && u % 4 == 0
    ensures Nearest(Sticky(x), u) == Nearest(x, 2 * u)
  {
    hide Sticky, RoundsUp, Quot, Rem, Times;
    QuotRem(x, 2 * u);
    StickySplit(x, u, Quot(x, 2 * u), Rem(x, 2 * u));
    StickyRoundsAlike(Quot(x, 2 * u), Rem(x, 2 * u), u);
  }

  /** Rounding the halved value and doubling is rounding the value itself, whenever at
      least three bits are dropped. */
  lemma HalvingIsExact(p: nat, x: nat)
    requires p >= 1 && x >= Pow2(p + 2)
    ensures 2 * Round(p, Sticky(x)) == Round(p, x)
  {
    hide Nearest, Sticky, Times;
    BitsAbove(x, p + 2);
    Pow2Grows(1, p + 2);
    StickyBits(x);
    var s := Shift(p, x);
    assert Pow2(s - 1) == 2 * Pow2(s - 2) == 4 * Pow2(s - 3) && Pow2(s) == 2 * Pow2(s - 1);
    HalvedUnit(x, Pow2(s - 1));
    TimesDouble(Nearest(x, Pow2(s)), Pow2(s - 1));
  }

  /** Two dropped bits are not enough: the bit put back makes a false tie. */
  lemma TwoBitsAreNotEnough()
    ensures Round(1, 5) == 4 && 2 * Round(1, Sticky(5)) == 8
  {
    assert Bits(5) == 3 && Bits(3) == 2 by {
      assert Bits(5) == 1 + Bits(2) && Bits(2) == 1 + Bits(1) && Bits(1) == 1 + Bits(0) && Bits(3) == 1 + Bits(1);
    }
    assert Sticky(5) == 3;
    assert Pow2(2) == 4 && Pow2(1) == 2;
  }

  /** A 64-bit register read as signed. */
  function Signed(x: nat): int {
    if x < Pow2(63) then x else x - Pow2(64)
  }

  /** The signed conversion instruction. */
  function SignedToFloat(p: nat, x: nat): int {
    if Signed(x) < 0 then -(Round(p, -Signed(x)) as int) else Round(p, Signed(x))
  }

  /** The addition instruction, on non-negative values. */
  function AddFloat(p: nat, a: int, b: int): int {
    if a + b < 0 then -(Round(p, -(a + b)) as int) else Round(p, a + b)
  }

  /** The emitted sequence: a source with its top bit set is halved, keeping the dropped
      bit, converted as signed, and doubled. */
  function UnsignedToFloat(p: nat, src: nat): int {
    if Signed(src) >= 0 then SignedToFloat(p, src)
    else
      var dropped := src % 2;
      var half := src / 2;
      var kept := half + (if dropped == 1 && half % 2 == 0 then 1 else 0);
      AddFloat(p, SignedToFloat(p, kept), SignedToFloat(p, kept))
  }

  lemma TopPower()
    ensures Pow2(64) == 2 * Pow2(63) && Pow2(63) % 2 == 0
  {
    assert Pow2(63) == 2 * Pow2(62);
  }

  lemma DoubleIsRepresentable(p: nat, y: nat)
    requires Representable(p, y)
    ensures Representable(p, 2 * y)
  {
    var m: nat, e: nat :| IsFloat(p, y, m, e);
    assert Pow2(e + 1) == 2 * Pow2(e);
    TimesDouble(m, Pow2(e));
    assert IsFloat(p, 2 * y, m, e + 1);
  }

  /** Every 64-bit value converts to its correctly rounded float, in single (p = 24) and
      double (p = 53) precision. */
  lemma UnsignedToFloatRounds(p: nat, x: nat)
    requires 1 <= p <= 61 && x < Pow2(64)
    ensures UnsignedToFloat(p, x) == Round(p, x)
  {
    hide Round, Representable, Pow2;
    TopPower();
    if x >= Pow2(63) {
      Pow2Grows(p + 2, 63);
      HalvingIsExact(p, x);
      var h := Sticky(x);
      StickySmall(x, Pow2(63));
      RoundIsRepresentable(p, h);
      DoubleIsRepresentable(p, Round(p, h));
      RoundExact(p, 2 * Round(p, h));
    }
  }

  // ----- float to unsigned -----

  /** m scaled by a power of two. */
  function Scale(m: nat, e: int): real {
    if e >= 0 then Times(m, Pow2(e)) as real else m as real / Pow2(-e) as real
  }

  /** A non-negative float with a p-bit significand. */
  ghost predicate FloatValue(p: nat, v: real) {
    exists m: nat, e: int :: m < Pow2(p) && v == Scale(m, e)
  }

  datatype Source = Number(v: real) | NaN

  function Trunc(v: real): int {
    if v >= 0.0 then v.Floor else -((-v).Floor)
  }

  /** A 64-bit register's contents. */
  function Wrap(x: int): nat {
    x % Pow2(64)
  }

  lemma ModSmall(x: nat, n: nat)
    requires x < n
    ensures x % n == x
  {
  }

  lemma WrapSmall(x: nat)
    requires x < Pow2(64)
    ensures Wrap(x) == x
  {
    hide Pow2;
    ModSmall(x, Pow2(64));
  }

  /** The signed truncation instruction: what does not fit gives the indefinite value. */
  function TruncSigned(s: Source): nat {
    if s.NaN? || Trunc(s.v) < -(Pow2(63) as int) || Trunc(s.v) >= Pow2(63) then Pow2(63)
    else Wrap(Trunc(s.v))
  }

  /** The emitted sequence: below the pivot (or unordered) the signed truncation, else
      bias down by the pivot, truncate, and add the pivot back. `sub` is the float
      subtraction instruction. */
  function FloatToUnsigned(sub: (real, real) -> real, s: Source): nat {
    var bias := Pow2(63) as real;
    if s.NaN? || s.v < bias then TruncSigned(s)
    else Wrap(TruncSigned(Number(sub(s.v, bias))) + Pow2(63))
  }

  lemma FractionIsSmall(m: nat, e: int)
    requires e < 0
    ensures Scale(m, e) <= m as real
  {
    DivideShrinks(m as real, Pow2(-e) as real);
  }

  lemma DivideShrinks(a: real, b: real)
    requires a >= 0.0 && b >= 1.0
    ensures a / b <= a
  {
    assert a == a / b * b;
    assert a / b >= 0.0;
    assert a / b * b - a / b == a / b * (b - 1.0);
  }

  /** At or above the pivot a float is an integer, and the pivot can be taken off it
      exactly. */
  lemma BiasIsExact(p: nat, v: real)
    requires p <= 63 && FloatValue(p, v) && Pow2(63) as real <= v < Pow2(64) as real
    ensures v == v.Floor as real && FloatValue(p, v - Pow2(63) as real)
  {
    var m: nat, e: int :| m < Pow2(p) && v == Scale(m, e);
    Pow2Grows(p, 63);
    if e < 0 {
      FractionIsSmall(m, e);
      assert false;
    } else {
      IntegerBias(p, m, e);
      assert v == Times(m, Pow2(e)) as real;
      assert v - Pow2(63) as real == Scale(m - Pow2(63 - e), e);
    }
  }

  lemma IntegerBias(p: nat, m: nat, e: nat)
    requires Pow2(63) <= Times(m, Pow2(e)) < Pow2(64) && m < Pow2(p)
    ensures e <= 63 && m >= Pow2(63 - e)
    ensures Times(m, Pow2(e)) - Pow2(63) == Times(m - Pow2(63 - e), Pow2(e))
  {
    hide Times;
    if e > 63 {
      Pow2Grows(64, e);
      if m == 0 {
        TimesOrder(0, 0, Pow2(e));
        TimesZero(Pow2(e));
      } else {
        TimesOrder(1, m, Pow2(e));
        TimesOne(Pow2(e));
      }
    } else {
      Pow2Times(63 - e, e);
      if m < Pow2(63 - e) {
        TimesNext(m, Pow2(e));
        TimesOrder(m + 1, Pow2(63 - e), Pow2(e));
      }
      TimesMinus(m, Pow2(63 - e), Pow2(e));
    }
  }

  lemma TimesZero(u: nat)
    ensures Times(0, u) == 0
  {
  }

  lemma TimesOne(u: nat)
    ensures Times(1, u) == u
  {
  }

  lemma TimesMinus(a: nat, b: nat, u: nat)
    requires b <= a
    ensures Times(a - b, u) == Times(a, u) - Times(b, u)
  {
  }

  /** Every float in [0, 2^64) converts to its exact truncation. */
  lemma FloatToUnsignedTruncates(p: nat, sub: (real, real) -> real, v: real)
    requires 1 <= p <= 63 && FloatValue(p, v) && 0.0 <= v < Pow2(64) as real
    requires forall a: real, b: real :: FloatValue(p, a - b) ==> sub(a, b) == a - b
    ensures FloatToUnsigned(sub, Number(v)) == v.Floor
  {
    hide Wrap, TruncSigned, Pow2;
    TopPower();
    if v < Pow2(63) as real {
      SmallTrunc(v);
    } else {
      BiasIsExact(p, v);
      var d := v - Pow2(63) as real;
      assert sub(v, Pow2(63) as real) == d;
      assert d == (v.Floor - Pow2(63)) as real;
      SmallTrunc(d);
      WrapSmall(v.Floor);
    }
  }

  lemma SmallTrunc(v: real)
    requires 0.0 <= v < Pow2(63) as real
    ensures TruncSigned(Number(v)) == v.Floor && 0 <= v.Floor < Pow2(63)
  {
    hide Wrap;
    assert Pow2(64) == 2 * Pow2(63);
    WrapSmall(v.Floor);
  }

  /** At 2^64 and above nothing fits and the two halves of the sequence cancel to zero. */
  lemma TooLargeIsZero(sub: (real, real) -> real, v: real)
    requires v >= Pow2(64) as real && sub(v, Pow2(63) as real) >= Pow2(63) as real
    ensures FloatToUnsigned(sub, Number(v)) == 0
  {
    hide Pow2, Wrap;
    TopPower();
    assert TruncSigned(Number(sub(v, Pow2(63) as real))) == Pow2(63);
    WrapTop();
  }

  /** Outside the unsigned range the sequence gives the signed instruction's answer: an
      unordered source and one that no signed register holds give the indefinite value,
      a negative one the two's complement of its truncation. */
  lemma SignedAnswer(sub: (real, real) -> real, v: real, k: nat)
    requires v < 0.0 && k as real <= -v < (k + 1) as real
    ensures FloatToUnsigned(sub, NaN) == Pow2(63)
    ensures k == 0 ==> FloatToUnsigned(sub, Number(v)) == 0
    ensures 0 < k <= Pow2(63) ==> FloatToUnsigned(sub, Number(v)) == Pow2(64) - k
    ensures k > Pow2(63) ==> FloatToUnsigned(sub, Number(v)) == Pow2(63)
  {
    hide Pow2;
    TopPower();
    assert (-v).Floor == k;
    if k == 0 {
      WrapSmall(0);
    } else if k <= Pow2(63) {
      ModNegative(k, Pow2(64));
    }
  }

  lemma ModNegative(k: nat, n: nat)
    requires 0 < k < n
    ensures (0 - k) % n == n - k
  {
    Shifted(n - k, n);
  }

  lemma Shifted(x: nat, n: nat)
    requires x < n
    ensures (x - n) % n == x
  {
  }

  lemma WrapTop()
    ensures Wrap(Pow2(64)) == 0
  {
    hide Pow2;
    ModSelf(Pow2(64));
  }

  lemma ModSelf(n: nat)
    requires n > 0
    ensures n % n == 0
  {
  }

  lemma RoundsWithin(p: nat, x: nat, n: nat)
    requires p >= 1 && x <= Pow2(n)
    ensures Round(p, x) <= Pow2(n)
  {
    hide Round;
    TimesOne(Pow2(n));
    Pow2Grows(1, p);
    assert IsFloat(p, Pow2(n), 1, n);
    RoundIsNearest(p, x, Pow2(n));
  }

  /** There and back: a 64-bit value comes back as its rounding, or as zero when it
      rounds to 2^64; so unchanged exactly when it has a p-bit significand. */
  lemma UnsignedRoundTrip(p: nat, sub: (real, real) -> real, x: nat)
    requires 1 <= p <= 61 && x < Pow2(64)
    requires forall a: real, b: real :: FloatValue(p, a - b) ==> sub(a, b) == a - b
    ensures Round(p, x) <= Pow2(64)
    ensures FloatToUnsigned(sub, Number(UnsignedToFloat(p, x) as real)) == if Round(p, x) < Pow2(64) then Round(p, x) else 0
    ensures FloatToUnsigned(sub, Number(UnsignedToFloat(p, x) as real)) == x <==> Representable(p, x)
  {
    hide FloatToUnsigned, UnsignedToFloat, Round, Pow2;
    UnsignedToFloatRounds(p, x);
    RoundsWithin(p, x, 64);
    if Round(p, x) < Pow2(64) {
      RoundIsRepresentable(p, x);
      var m: nat, e: nat :| IsFloat(p, Round(p, x), m, e);
      assert Round(p, x) as real == Scale(m, e);
      FloatToUnsignedTruncates(p, sub, Round(p, x) as real);
    } else {
      TopDifference(p, sub);
      TooLargeIsZero(sub, Pow2(64) as real);
      ZeroIsRepresentable(p, x);
    }
    if Representable(p, x) {
      RoundExact(p, x);
    }
  }

  lemma TopDifference(p: nat, sub: (real, real) -> real)
    requires p >= 1 && forall a: real, b: real :: FloatValue(p, a - b) ==> sub(a, b) == a - b
    ensures sub(Pow2(64) as real, Pow2(63) as real) == Pow2(63) as real
  {
    TopPower();
    Pow2Grows(1, p);
    TimesOne(Pow2(63));
    var a, b := Pow2(64) as real, Pow2(63) as real;
    assert a - b == Scale(1, 63);
    assert FloatValue(p, a - b);
  }

  lemma ZeroIsRepresentable(p: nat, x: nat)
    requires p >= 1 && Round(p, x) >= Pow2(64) > x
    ensures !Representable(p, x) && x != 0
  {
    if Representable(p, x) {
      RoundExact(p, x);
    }
    TimesZero(1);
    assert IsFloat(p, 0, 0, 0);
  }

  // ----- the 32-bit forms -----

  /** A zero-extended 32-bit source needs no halving. */
  lemma Unsigned32ToFloatRounds(p: nat, x: nat)
    requires p >= 1 && x < Pow2(32)
    ensures SignedToFloat(p, x) == Round(p, x)
  {
    Pow2Grows(32, 63);
  }

  /** The low half of a register. */
  function Low32(x: nat): nat {
    x % Pow2(32)
  }

  /** A 32-bit result is the low half of the 64-bit signed truncation. */
  lemma FloatToUnsigned32Truncates(v: real)
    requires 0.0 <= v < Pow2(32) as real
    ensures Low32(TruncSigned(Number(v))) == v.Floor
  {
    hide Pow2;
    Pow2Grows(32, 63);
    SmallTrunc(v);
    ModSmall(v.Floor, Pow2(32));
  }
}
