/**
 What the number operations return, value by value: ranges, equality and order in plain arithmetic, and the two
 bit patterns of the number one.
*/
module NumberForms {
  import opened Options
  import opened ByteStrings
  import opened PropertyEncoding
  import opened Dyadic
  import opened PropertyEquality
  import N = Numbers
  import opened FloatPatterns

  /** The integer ranges; int and uint have 64 bits. */
  lemma IntegerRanges(w: N.Width, i: int)
    ensures N.Legal(N.Int(w, i)) <==>
            match w
            case W8 => -128 <= i <= 127
            case W16 => -32768 <= i <= 32767
            case W32 => -0x8000_0000 <= i <= 0x7FFF_FFFF
            case W64 => -0x8000_0000_0000_0000 <= i <= 0x7FFF_FFFF_FFFF_FFFF
            case Native => -0x8000_0000_0000_0000 <= i <= 0x7FFF_FFFF_FFFF_FFFF
    ensures N.Legal(N.Uint(w, i)) <==>
            match w
            case W8 => 0 <= i <= 255
            case W16 => 0 <= i <= 65535
            case W32 => 0 <= i <= 0xFFFF_FFFF
            case W64 => 0 <= i <= 0xFFFF_FFFF_FFFF_FFFF
            case Native => 0 <= i <= 0xFFFF_FFFF_FFFF_FFFF
  {
  }

  /** Which numbers are the same; NaN is the same as none and no other value is a number. */
  lemma SameNumbers(a: N.Value, b: N.Value)
    ensures a.Int? && b.Int? ==> (N.SameNumber(a, b) <==> a.i == b.i)
    ensures a.Int? && b.Uint? ==> (N.SameNumber(a, b) <==> a.i == b.u)
    ensures a.Uint? && b.Uint? ==> (N.SameNumber(a, b) <==> a.u == b.u)
    ensures a.Int? && (b.Float32? || b.Float64?) ==> (N.SameNumber(a, b) <==> b.f == N.Fin(a.i * N.One()))
    ensures a.Uint? && (b.Float32? || b.Float64?) ==> (N.SameNumber(a, b) <==> b.f == N.Fin(a.u * N.One()))
    ensures (a.Float32? || a.Float64?) && (b.Float32? || b.Float64?) ==>
      (N.SameNumber(a, b) <==> a.f == b.f && a.f != N.NaN)
    ensures !N.IsNumber(a) || !N.IsNumber(b) ==> !N.SameNumber(a, b)
    ensures N.SameNumber(a, b) <==> N.SameNumber(b, a)
  {
    if a.Int? {
      N.HoldsInteger(a.i, b);
    } else if a.Uint? {
      N.HoldsInteger(a.u, b);
    }
  }

  /** -1, 0 or 1 as x is below, equal to or above y. */
  function Sign(x: int, y: int): int { if x < y then -1 else if x == y then 0 else 1 }

  /** A number against a finite float: the sign of the difference, with fractions taken into account. */
  lemma ComparedWithFinite(v: N.Value, n: int)
    requires N.InWidth(v)
    ensures v.Int? ==> N.CompareNumber(v, N.Fin(n)) == Some(Sign(v.i * N.One(), n))
    ensures v.Uint? ==> N.CompareNumber(v, N.Fin(n)) == Some(Sign(v.u * N.One(), n))
    ensures (v.Float32? || v.Float64?) && v.f.Fin? ==> N.CompareNumber(v, N.Fin(n)) == Some(Sign(v.f.n, n))
    ensures (v.Float32? || v.Float64?) && v.f == N.Inf(false) ==> N.CompareNumber(v, N.Fin(n)) == Some(1)
    ensures (v.Float32? || v.Float64?) && v.f == N.Inf(true) ==> N.CompareNumber(v, N.Fin(n)) == Some(-1)
  {
    N.CompareNumberIsExact(v, N.Fin(n));
  }

  /** Infinities lie beyond all other numbers, and NaN compares with nothing. */
  lemma ComparedWithOthers(v: N.Value)
    requires N.InWidth(v)
    ensures N.CompareNumber(v, N.NaN) == None
    ensures !N.IsNumber(v) || ((v.Float32? || v.Float64?) && v.f.NaN?) ==>
      forall f :: N.CompareNumber(v, f) == None
    ensures N.IsNumber(v) && (v.Int? || v.Uint? || (!v.f.NaN? && v.f != N.Inf(false))) ==>
      N.CompareNumber(v, N.Inf(false)) == Some(-1)
    ensures N.IsNumber(v) && (v.Int? || v.Uint? || (!v.f.NaN? && v.f != N.Inf(true))) ==>
      N.CompareNumber(v, N.Inf(true)) == Some(1)
    ensures (v.Float32? || v.Float64?) && v.f.Inf? ==> N.CompareNumber(v, v.f) == Some(0)
  {
    N.CompareNumberIsExact(v, N.Inf(false));
    N.CompareNumberIsExact(v, N.Inf(true));
  }

  // ---------- the number one ----------

  // A pattern with empty fraction denotes a power of two.
  lemma PowerPattern(p: nat, unit: nat, u: int, e: nat)
    requires unit == Pow2(p) && e > 0 && u == e * unit
    ensures Magnitude(unit, u) == Pow2(p + (e - 1))
  {
    SplitPattern(unit, u, e, 0);
    Pow2Add(p, e - 1);
  }

  lemma PatternOfPower(k: Kind, p: nat, u: int, e: nat, least: nat, total: nat)
    requires Unit(k) == Pow2(p) && 0 < u == e * Unit(k) && u < MaxExponent(k) * Unit(k) && u < SignBit(k) && e > 0
    requires least == Least(k) && p + (e - 1) + least == total
    ensures FloatOf(k, u) == N.Fin(Pow2(total))
  {
    PowerPattern(p, Unit(k), u, e);
    Pow2Add(p + (e - 1), least);
  }

  lemma Units()
    ensures Pow2(23) == 0x80_0000 && Pow2(52) == 0x10_0000_0000_0000
  {
    assert Pow2(1) == 2 && Pow2(2) == 4 && Pow2(3) == 8 && Pow2(4) == 16 && Pow2(5) == 32 && Pow2(6) == 64
        && Pow2(7) == 128;
    Pow2Add(4, 4);
    Pow2Add(8, 8);
    Pow2Add(16, 7);
    Pow2Add(16, 16);
    Pow2Add(16, 4);
    Pow2Add(32, 20);
  }

  /** The patterns of 1.0 as float64 and as float32 both denote the unit of the exact arithmetic. */
  lemma PatternsOfOne()
    ensures FloatOf(KFloat64, 0x3FF0_0000_0000_0000) == N.Fin(N.One())
    ensures FloatOf(KFloat32, 0x3F80_0000) == N.Fin(N.One())
  {
    Units();
    PatternOfPower(KFloat64, 52, 0x3FF0_0000_0000_0000, 1023, 0, 1074);
    PatternOfPower(KFloat32, 23, 0x3F80_0000, 127, 925, 1074);
  }
}
