/**
 The two views of floats agree: the numbers denoted by the finite IEEE 754 bit patterns are exactly the
 dyadic numbers that the exact arithmetic treats as representable, for both widths.
*/
module FloatPatterns {
  import opened ByteStrings
  import opened Dyadic
  import opened PropertyEncoding
  import opened PropertyEquality
  import N = Numbers

  /** Significant bits. */
  function Precision(k: Kind): nat { if k.KFloat32? then N.P32 else N.P64 }

  /** The smallest subnormal as a power of two, in units of 2^-1074. */
  function Least(k: Kind): nat { if k.KFloat32? then N.LEAST32 else 0 }

  ghost predicate Representable(k: Kind, f: N.Float) { if k.KFloat32? then N.IsFloat32(f) else N.IsFloat64(f) }

  /** The float that a bit pattern denotes. */
  function FloatOf(k: Kind, bits: int): N.Float
    requires bits >= 0
  {
    if IsNaN(k, bits) then N.NaN
    else if Unsigned(k, bits) == MaxExponent(k) * Unit(k) then N.Inf(bits >= SignBit(k))
    else N.Fin(Number(k, bits) * Pow2(Least(k)))
  }

  // ---------- magnitudes ----------

  lemma MagnitudeSplit(unit: nat, u: int) returns (m: nat, k: nat)
    requires unit > 0 && u >= 0
    ensures m < 2 * unit && Magnitude(unit, u) == m * Pow2(k)
  {
    if u / unit == 0 {
      m, k := u % unit, 0;
    } else {
      m, k := unit + u % unit, u / unit - 1;
    }
  }

  lemma MagnitudeFits(p: nat, u: int) returns (m: nat, k: nat)
    requires p >= 1 && u >= 0
    ensures FitsAs(Magnitude(Pow2(p - 1), u), p, 0, m, k)
  {
    var unit := Pow2(p - 1);
    m, k := MagnitudeSplit(unit, u);
    assert Pow2(p) == 2 * unit;
  }

  lemma SubnormalPattern(unit: nat, m: nat)
    requires m < unit
    ensures Magnitude(unit, m) == m
  {
    SplitPattern(unit, m, 0, m);
  }

  lemma NormalPattern(unit: nat, m: nat, k: nat) returns (u: int)
    requires 0 < unit <= m < 2 * unit
    ensures u >= 0 && Magnitude(unit, u) == m * Pow2(k)
  {
    u := (k + 1) * unit + (m - unit);
    SplitPattern(unit, u, k + 1, m - unit);
  }

  lemma Doubled(m: nat, k: nat)
    requires k > 0
    ensures m * Pow2(k) == 2 * m * Pow2(k - 1)
  {
    assert Pow2(k) == 2 * Pow2(k - 1);
    Regroup(m, 2, Pow2(k - 1), Pow2(k));
  }

  /** Every number of p significant bits is the magnitude of a pattern. */
  lemma {:induction false} PatternOf(p: nat, unit: nat, m: nat, k: nat) returns (u: int)
    requires p >= 1 && unit == Pow2(p - 1) && m < 2 * unit
    ensures u >= 0 && Magnitude(unit, u) == m * Pow2(k)
    decreases k
  {
    if m >= unit {
      u := NormalPattern(unit, m, k);
    } else if k == 0 {
      u := m;
      SubnormalPattern(unit, m);
    } else {
      Doubled(m, k);
      u := PatternOf(p, unit, 2 * m, k - 1);
    }
  }

  /** The patterns below the infinity are those of the finite numbers. */
  lemma FinitePatterns(p: nat, top: nat, u: int)
    requires p >= 2 && u >= 0
    ensures u < (top + 2) * Pow2(p - 1) <==> Magnitude(Pow2(p - 1), u) <= N.MaxFinite(p, top)
  {
    var unit := Pow2(p - 1);
    assert Pow2(p) == 2 * unit && unit == 2 * Pow2(p - 2);
    var last := (top + 1) * unit + (unit - 1);
    SplitPattern(unit, last, top + 1, unit - 1);
    assert Magnitude(unit, last) == (Pow2(p) - 1) * Pow2(top);
    assert last + 1 == (top + 2) * unit;
    if u < last {
      MagnitudeIncreases(unit, u, last);
    } else if u > last {
      MagnitudeIncreases(unit, last, u);
    }
  }

  // ---------- scaled by the least exponent ----------

  lemma ScaledBound(p: nat, top: nat, least: nat, n: nat)
    ensures n <= N.MaxFinite(p, top) <==> n * Pow2(least) <= N.MaxFinite(p, top + least)
  {
    var max, c := N.MaxFinite(p, top), Pow2(least);
    Pow2Add(top, least);
    Regroup(Pow2(p) - 1, Pow2(top), c, Pow2(top + least));
    if n <= max {
      MulKeepsOrder(n, max, c);
    } else {
      MulKeepsStrictOrder(max, n, c);
    }
  }

  lemma ScaledFits(n: nat, p: nat, least: nat, m: nat, k: nat)
    requires FitsAs(n, p, 0, m, k)
    ensures FitsAs(n * Pow2(least), p, least, m, k + least)
  {
    Pow2Add(k, least);
    Regroup(m, Pow2(k), Pow2(least), Pow2(k + least));
  }

  lemma PatternIsRepresentable(p: nat, top: nat, least: nat, u: int)
    requires p >= 2 && 0 <= u < (top + 2) * Pow2(p - 1)
    ensures var n := Magnitude(Pow2(p - 1), u);
      n >= 0 && Fits(n * Pow2(least), p, least) && n * Pow2(least) <= N.MaxFinite(p, top + least)
  {
    var n := Magnitude(Pow2(p - 1), u);
    var m, k := MagnitudeFits(p, u);
    ScaledFits(n, p, least, m, k);
    FinitePatterns(p, top, u);
    ScaledBound(p, top, least, n);
  }

  lemma RepresentableHasPattern(p: nat, top: nat, least: nat, n: nat) returns (u: int)
    requires p >= 2 && Fits(n, p, least) && n <= N.MaxFinite(p, top + least)
    ensures 0 <= u < (top + 2) * Pow2(p - 1) && Magnitude(Pow2(p - 1), u) * Pow2(least) == n
  {
    var m: nat, k: nat :| FitsAs(n, p, least, m, k);
    assert Pow2(p) == 2 * Pow2(p - 1);
    u := PatternOf(p, Pow2(p - 1), m, k - least);
    Pow2Add(k - least, least);
    Regroup(m, Pow2(k - least), Pow2(least), Pow2(k));
    ScaledBound(p, top, least, m * Pow2(k - least));
    FinitePatterns(p, top, u);
  }

  // ---------- the two widths ----------

  lemma Units(k: Kind)
    requires IsFloat(k)
    ensures Unit(k) == Pow2(Precision(k) - 1)
    ensures if k.KFloat32? then MaxExponent(k) - 2 + Least(k) == N.TOP32 else MaxExponent(k) - 2 + Least(k) == N.TOP64
  {
    assert Pow2(1) == 2 && Pow2(2) == 4 && Pow2(3) == 8 && Pow2(4) == 16 && Pow2(5) == 32 && Pow2(6) == 64
        && Pow2(7) == 128;
    Pow2Add(4, 4);
    Pow2Add(8, 8);
    Pow2Add(16, 7);
    Pow2Add(16, 16);
    Pow2Add(16, 4);
    Pow2Add(32, 20);
  }

  /** A pattern that is no NaN and no infinity denotes a representable number. */
  lemma PatternsAreRepresentable(k: Kind, bits: int)
    requires IsFloat(k) && InRange(k, bits)
    ensures bits >= 0 && Representable(k, FloatOf(k, bits))
  {
    FloatRange(k, bits);
    var u, c := Unsigned(k, bits), Pow2(Least(k));
    if u < MaxExponent(k) * Unit(k) {
      Units(k);
      PatternIsRepresentable(Precision(k), MaxExponent(k) - 2, Least(k), u);
      var n := Magnitude(Unit(k), u);
      SignedProduct(n, c);
      assert N.Abs(Number(k, bits) * c) == n * c;
    }
  }

  lemma SignedProduct(n: int, c: nat)
    requires n >= 0
    ensures -n * c == -(n * c) && n * c >= 0
  {
  }

  lemma FiniteHasBits(k: Kind, n: int) returns (bits: int)
    requires IsFloat(k) && Representable(k, N.Fin(n))
    ensures 0 <= bits < 2 * SignBit(k) && FloatOf(k, bits) == N.Fin(n)
  {
    Units(k);
    var c, max, unit := Pow2(Least(k)), MaxExponent(k), Unit(k);
    var u := RepresentableHasPattern(Precision(k), max - 2, Least(k), N.Abs(n));
    assert max * unit + unit == SignBit(k);
    SignedProduct(Magnitude(unit, u), c);
    bits := if n < 0 then u + SignBit(k) else u;
    assert Unsigned(k, bits) == u;
  }

  /** Every representable number, infinity and NaN has a pattern. */
  lemma RepresentableHasBits(k: Kind, f: N.Float) returns (bits: int)
    requires IsFloat(k) && Representable(k, f)
    ensures InRange(k, bits) && bits >= 0 && FloatOf(k, bits) == f
  {
    if f.Fin? {
      bits := FiniteHasBits(k, f.n);
    } else {
      var infinity := MaxExponent(k) * Unit(k);
      bits := if f.NaN? then infinity + 1 else if f.neg then infinity + SignBit(k) else infinity;
    }
    Ranges(k, bits);
  }

  lemma Ranges(k: Kind, bits: int)
    requires IsFloat(k) && 0 <= bits < 2 * SignBit(k)
    ensures InRange(k, bits)
  {
    assert Pow256(1) == 0x100 && Pow256(2) == 0x1_0000 && Pow256(3) == 0x100_0000 && Pow256(4) == 0x1_0000_0000;
    assert Pow256(5) == 0x100_0000_0000 && Pow256(6) == 0x1_0000_0000_0000 && Pow256(7) == 0x100_0000_0000_0000
        && Pow256(8) == 0x1_0000_0000_0000_0000;
  }

  /** Patterns compare equal if and only if they denote the same float, all NaNs being one. */
  lemma EqualPatternsDenoteTheSame(k: Kind, a: int, b: int)
    requires IsFloat(k) && InRange(k, a) && InRange(k, b)
    ensures a >= 0 && b >= 0 && (FloatEqual(k, a, b) <==> FloatOf(k, a) == FloatOf(k, b))
  {
    FloatRange(k, a);
    FloatRange(k, b);
    var u, w, c := Unsigned(k, a), Unsigned(k, b), Pow2(Least(k));
    MagnitudeInjective(Unit(k), u, w);
    MagnitudeInjective(Unit(k), w, u);
    MagnitudeInjective(Unit(k), u, MaxExponent(k) * Unit(k));
    MagnitudeInjective(Unit(k), w, MaxExponent(k) * Unit(k));
    SameMultiple(Number(k, a), Number(k, b), c);
  }

  lemma SameMultiple(x: int, y: int, c: nat)
    requires c > 0
    ensures x * c == y * c <==> x == y
  {
    if x < y {
      MulKeepsStrictOrder(x, y, c);
    } else if y < x {
      MulKeepsStrictOrder(y, x, c);
    }
  }
}
