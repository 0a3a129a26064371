/**
 Equality of stored property values, which treats all NaNs alike and the two zeros alike, against the
 hash encoding, which compares floats by their bits.
*/
module PropertyEquality {
  import opened ByteStrings
  import opened PropertyEncoding
  import opened Dyadic

  // ---------- floats as bit patterns ----------

  predicate IsFloat(k: Kind) { k.KFloat32? || k.KFloat64? }

  /** The weight of the sign bit. */
  function SignBit(k: Kind): int { if k.KFloat32? then 0x8000_0000 else 0x8000_0000_0000_0000 }

  /** The weight of the lowest exponent bit: 2^23 or 2^52. */
  function Unit(k: Kind): int { if k.KFloat32? then 0x80_0000 else 0x10_0000_0000_0000 }

  function MaxExponent(k: Kind): int { if k.KFloat32? then 0xFF else 0x7FF }

  /** The pattern without its sign bit. */
  function Unsigned(k: Kind, bits: int): int { if bits >= SignBit(k) then bits - SignBit(k) else bits }

  predicate IsNaN(k: Kind, bits: int) { Unsigned(k, bits) > MaxExponent(k) * Unit(k) }

  predicate IsZero(k: Kind, bits: int) { Unsigned(k, bits) == 0 }

  /**
   The number a pattern without sign denotes, in multiples of the smallest subnormal (section 3.4 of
   IEEE 754-2019). The infinity takes the value that would follow the largest finite number.
  */
  function Magnitude(unit: int, u: int): int
    requires unit > 0 && u >= 0
  {
    var e, m := u / unit, u % unit;
    if e == 0 then m else (unit + m) * Pow2(e - 1)
  }

  /** The signed number that a pattern other than a NaN denotes. */
  function Number(k: Kind, bits: int): int
    requires bits >= 0
  {
    var magnitude := Magnitude(Unit(k), Unsigned(k, bits));
    if bits >= SignBit(k) then -magnitude else magnitude
  }

  /** Numeric equality, with any NaN equal to any other. */
  predicate FloatEqual(k: Kind, a: int, b: int)
    requires a >= 0 && b >= 0
  {
    if IsNaN(k, a) || IsNaN(k, b) then IsNaN(k, a) && IsNaN(k, b) else Number(k, a) == Number(k, b)
  }

  /** One pattern for all NaNs and one for both zeros. */
  function Canonical(k: Kind, bits: int): int {
    if IsNaN(k, bits) then MaxExponent(k) * Unit(k) + Unit(k) / 2
    else if IsZero(k, bits) then 0
    else bits
  }

  lemma MultipleIsFar(unit: int, d: int)
    requires unit > 0
    ensures d >= 1 ==> unit * d >= unit
    ensures d <= -1 ==> unit * d <= -unit
  {
    if d >= 1 {
      assert unit * d == unit + unit * (d - 1);
    } else if d <= -1 {
      assert unit * d == -unit + unit * (d + 1);
    }
  }

  lemma SplitPattern(unit: int, u: int, e: int, m: int)
    requires unit > 0 && u == e * unit + m && 0 <= m < unit
    ensures u / unit == e && u % unit == m
  {
    var d := u / unit - e;
    assert u == unit * (u / unit) + u % unit;
    assert unit * d == m - u % unit;
    MultipleIsFar(unit, d);
  }

  lemma MagnitudeStepsWithin(unit: int, u: int, e: nat, m: int)
    requires unit > 1 && u == e * unit + m && 0 <= m < unit - 1
    ensures Magnitude(unit, u) < Magnitude(unit, u + 1)
  {
    SplitPattern(unit, u, e, m);
    SplitPattern(unit, u + 1, e, m + 1);
    if e > 0 {
      var p := Pow2(e - 1);
      assert (unit + (m + 1)) * p == (unit + m) * p + p;
    }
  }

  lemma MagnitudeStepsAcross(unit: int, u: int, e: nat)
    requires unit > 1 && u == e * unit + unit - 1
    ensures Magnitude(unit, u) < Magnitude(unit, u + 1)
  {
    SplitPattern(unit, u, e, unit - 1);
    assert u + 1 == (e + 1) * unit;
    SplitPattern(unit, u + 1, e + 1, 0);
    if e > 0 {
      var p := Pow2(e - 1);
      assert (unit + (unit - 1)) * p == unit * (2 * p) - p;
    }
  }

  lemma MagnitudeSteps(unit: int, u: int)
    requires unit > 1 && u >= 0
    ensures Magnitude(unit, u) < Magnitude(unit, u + 1)
  {
    var e, m := u / unit, u % unit;
    if m + 1 < unit {
      MagnitudeStepsWithin(unit, u, e, m);
    } else {
      MagnitudeStepsAcross(unit, u, e);
    }
  }

  lemma {:induction false} MagnitudeIncreases(unit: int, u: int, w: int)
    requires unit > 1 && 0 <= u < w
    ensures Magnitude(unit, u) < Magnitude(unit, w)
    decreases w
  {
    MagnitudeSteps(unit, w - 1);
    if u < w - 1 {
      MagnitudeIncreases(unit, u, w - 1);
    }
  }

  lemma MagnitudeInjective(unit: int, u: int, w: int)
    requires unit > 1 && u >= 0 && w >= 0
    ensures Magnitude(unit, u) == Magnitude(unit, w) <==> u == w
    ensures Magnitude(unit, u) >= 0 && (Magnitude(unit, u) == 0 <==> u == 0)
  {
    if u < w {
      MagnitudeIncreases(unit, u, w);
    } else if w < u {
      MagnitudeIncreases(unit, w, u);
    }
    assert 0 / unit == 0 && 0 % unit == 0;
    assert Magnitude(unit, 0) == 0;
    if u > 0 {
      MagnitudeIncreases(unit, 0, u);
    }
  }

  /** Floats are equal if and only if their patterns coincide once NaNs and zeros are made one. */
  lemma FloatEqualIffCanonical(k: Kind, a: int, b: int)
    requires IsFloat(k) && InRange(k, a) && InRange(k, b)
    ensures FloatEqual(k, a, b) <==> Canonical(k, a) == Canonical(k, b)
  {
    FloatRange(k, a);
    FloatRange(k, b);
    var u, w := Unsigned(k, a), Unsigned(k, b);
    MagnitudeInjective(Unit(k), u, w);
    MagnitudeInjective(Unit(k), w, u);
  }

  lemma FloatRange(k: Kind, bits: int)
    requires IsFloat(k) && InRange(k, bits)
    ensures 0 <= Unsigned(k, bits) < SignBit(k) && bits >= 0
    ensures IsNaN(k, Canonical(k, bits)) <==> IsNaN(k, bits)
    ensures InRange(k, Canonical(k, bits))
  {
    assert Pow256(1) == 0x100 && Pow256(2) == 0x1_0000 && Pow256(3) == 0x100_0000 && Pow256(4) == 0x1_0000_0000;
    assert Pow256(5) == 0x100_0000_0000 && Pow256(6) == 0x1_0000_0000_0000 && Pow256(7) == 0x100_0000_0000_0000
        && Pow256(8) == 0x1_0000_0000_0000_0000;
  }

  // ---------- values ----------

  function CanonicalAll(k: Kind, ns: seq<int>): seq<int> {
    if IsFloat(k) then seq(|ns|, i requires 0 <= i < |ns| => Canonical(k, ns[i])) else ns
  }

  /** The value with every float in it, at any depth, made canonical. */
  ghost function Normalised(v: Value): Value
    decreases v
  {
    match v
    case Scalar(k, n) => if IsFloat(k) then Scalar(k, Canonical(k, n)) else v
    case Fixed(e, ns) => Fixed(e, CanonicalAll(KindOf(e), ns))
    case Any(vs) => Any(seq(|vs|, i requires 0 <= i < |vs| => Normalised(vs[i])))
    case MapAny(m) => MapAny(map k | k in m :: Normalised(m[k]))
    case _ => v
  }

  /** No registered custom value inside v; those are compared field by field by reflection. */
  ghost predicate NoCustom(v: Value)
    decreases v
  {
    && !v.Custom?
    && (v.Any? ==> forall i :: 0 <= i < |v.vs| ==> NoCustom(v.vs[i]))
    && (v.MapAny? ==> forall k :: k in v.m ==> NoCustom(v.m[k]))
  }

  /** Compares element by element, stopping at the first difference. */
  method EqualScalars(k: Kind, a: seq<int>, b: seq<int>) returns (eq: bool)
    requires AllInRange(k, a) && AllInRange(k, b)
    ensures eq <==> CanonicalAll(k, a) == CanonicalAll(k, b)
  {
    if |a| != |b| {
      return false;
    }
    for i := 0 to |a|
      invariant forall j :: 0 <= j < i ==> CanonicalAll(k, a)[j] == CanonicalAll(k, b)[j]
    {
      if IsFloat(k) {
        FloatRange(k, a[i]);
        FloatRange(k, b[i]);
        FloatEqualIffCanonical(k, a[i], b[i]);
      }
      var same := if IsFloat(k) then FloatEqual(k, a[i], b[i]) else a[i] == b[i];
      if !same {
        assert CanonicalAll(k, a)[i] != CanonicalAll(k, b)[i];
        return false;
      }
    }
    assert CanonicalAll(k, a) == CanonicalAll(k, b);
    eq := true;
  }

  method EqualAll(a: Value, b: Value) returns (eq: bool)
    requires a.Any? && b.Any? && Typed(a) && Typed(b) && NoCustom(a) && NoCustom(b)
    ensures eq <==> Normalised(a) == Normalised(b)
    decreases a, 0
  {
    ghost var x, y := Normalised(a).vs, Normalised(b).vs;
    if |a.vs| != |b.vs| {
      assert |x| != |y|;
      return false;
    }
    for i := 0 to |a.vs|
      invariant forall j :: 0 <= j < i ==> x[j] == y[j]
    {
      eq := ValuesEqual(a.vs[i], b.vs[i]);
      assert eq <==> x[i] == y[i];
      if !eq {
        return;
      }
    }
    assert x == y;
    eq := true;
  }

  lemma SameSizeSubset(s: set<Bytes>, t: set<Bytes>)
    requires s <= t && |s| == |t|
    ensures s == t
  {
    assert t == s + (t - s);
    assert |t| == |s| + |t - s|;
  }

  lemma MapsDiffer(a: Value, b: Value, k: Bytes)
    requires a.MapAny? && b.MapAny? && k in a.m && (k in b.m ==> Normalised(a.m[k]) != Normalised(b.m[k]))
    ensures Normalised(a) != Normalised(b)
  {
    assert k in Normalised(a).m && Normalised(a).m[k] == Normalised(a.m[k]);
    assert k in b.m ==> Normalised(b).m[k] == Normalised(b.m[k]);
    assert Normalised(b).m.Keys == b.m.Keys;
  }

  lemma MapsAgree(a: Value, b: Value)
    requires a.MapAny? && b.MapAny? && |a.m| == |b.m|
    requires forall k :: k in a.m ==> k in b.m && Normalised(a.m[k]) == Normalised(b.m[k])
    ensures Normalised(a) == Normalised(b)
  {
    SameSizeSubset(a.m.Keys, b.m.Keys);
    assert Normalised(a).m == Normalised(b).m;
  }

  lemma MapSize(v: Value)
    requires v.MapAny?
    ensures |Normalised(v).m| == |v.m|
  {
    assert Normalised(v).m.Keys == v.m.Keys;
  }

  /** Compares map entries in whatever order the first map yields them. */
  method EqualMaps(a: Value, b: Value) returns (eq: bool)
    requires a.MapAny? && b.MapAny? && Typed(a) && Typed(b) && NoCustom(a) && NoCustom(b)
    ensures eq <==> Normalised(a) == Normalised(b)
    decreases a, 0
  {
    if |a.m| != |b.m| {
      MapSize(a);
      MapSize(b);
      return false;
    }
    var rest := a.m.Keys;
    while rest != {}
      invariant rest <= a.m.Keys
      invariant forall k :: k in a.m && k !in rest ==> k in b.m && Normalised(a.m[k]) == Normalised(b.m[k])
    {
      var k :| k in rest;
      eq := k in b.m;
      if eq {
        eq := ValuesEqual(a.m[k], b.m[k]);
      }
      if !eq {
        MapsDiffer(a, b, k);
        return;
      }
      rest := rest - {k};
    }
    MapsAgree(a, b);
    eq := true;
  }

  /** Dynamic types. */
  datatype DynamicType =
    | OfNil | OfScalar(k: Kind) | OfText | OfTemporal | OfContainer(c: Container) | OfCustom(name: Bytes, pointer: bool)

  function TypeOf(v: Value): DynamicType {
    match v
    case Nil => OfNil
    case Scalar(k, _) => OfScalar(k)
    case Text(_) => OfText
    case Temporal(_, _) => OfTemporal
    case NilOf(c) => OfContainer(c)
    case Strings(_) => OfContainer(CStrings)
    case Fixed(e, _) => OfContainer(CFixed(e))
    case Any(_) => OfContainer(CAny)
    case MapAny(_) => OfContainer(CMapAny)
    case MapString(_) => OfContainer(CMapString)
    case Custom(name, pointer, _) => OfCustom(name, pointer)
  }

  lemma NormalisedType(v: Value)
    ensures TypeOf(Normalised(v)) == TypeOf(v)
    ensures Normalised(v).NilOf? == v.NilOf?
  {
  }

  method EqualScalar(k: Kind, a: int, b: int) returns (eq: bool)
    requires InRange(k, a) && InRange(k, b)
    ensures eq <==> Normalised(Scalar(k, a)) == Normalised(Scalar(k, b))
  {
    if IsFloat(k) {
      FloatRange(k, a);
      FloatRange(k, b);
      FloatEqualIffCanonical(k, a, b);
      eq := FloatEqual(k, a, b);
    } else {
      eq := a == b;
    }
  }

  /** Equality of property values is equality after normalising their floats. */
  method ValuesEqual(a: Value, b: Value) returns (eq: bool)
    requires Typed(a) && Typed(b) && NoCustom(a) && NoCustom(b)
    ensures eq <==> Normalised(a) == Normalised(b)
    decreases a, 1
  {
    NormalisedType(a);
    NormalisedType(b);
    if a.Nil? || b.Nil? {
      return a.Nil? && b.Nil?;
    }
    if TypeOf(a) != TypeOf(b) {
      return false;
    }
    if a.NilOf? || b.NilOf? {
      return a.NilOf? && b.NilOf?;
    }
    if a.Scalar? {
      eq := EqualScalar(a.kind, a.n, b.n);
    } else if a.Fixed? {
      eq := EqualScalars(KindOf(a.e), a.ns, b.ns);
    } else if a.Any? {
      eq := EqualAll(a, b);
    } else if a.MapAny? {
      eq := EqualMaps(a, b);
    } else {
      eq := a == b;
    }
  }

  // ---------- agreement with the encoding ----------

  lemma {:induction false} NormalisedKeeps(v: Value)
    requires Typed(v) && Sized(v)
    ensures Typed(Normalised(v)) && Sized(Normalised(v))
    decreases v
  {
    match v
    case Scalar(k, n) =>
      if IsFloat(k) {
        FloatRange(k, n);
      }
    case Fixed(e, ns) =>
      forall i | 0 <= i < |ns|
        ensures InRange(KindOf(e), CanonicalAll(KindOf(e), ns)[i])
      {
        if IsFloat(KindOf(e)) {
          FloatRange(KindOf(e), ns[i]);
        }
      }
    case Any(vs) =>
      forall i | 0 <= i < |vs|
        ensures Typed(Normalised(vs[i])) && Sized(Normalised(vs[i]))
      {
        NormalisedKeeps(vs[i]);
      }
    case MapAny(m) =>
      MapSize(v);
      forall k | k in m
        ensures Typed(Normalised(m[k])) && Sized(Normalised(m[k]))
      {
        NormalisedKeeps(m[k]);
      }
    case _ =>
  }

  /** Values are equal after normalisation if and only if their normalised encodings coincide. */
  lemma EqualIffEncodingsAgree(a: Value, b: Value)
    requires Typed(a) && Sized(a) && Typed(b) && Sized(b)
    ensures Typed(Normalised(a)) && Typed(Normalised(b))
    ensures Normalised(a) == Normalised(b) <==> Encode(Normalised(a)) == Encode(Normalised(b))
  {
    NormalisedKeeps(a);
    NormalisedKeeps(b);
    EncodingIsInjective(Normalised(a), [], Normalised(b), []);
    assert Encode(Normalised(a)) + [] == Encode(Normalised(a)) && Encode(Normalised(b)) + [] == Encode(Normalised(b));
  }
}
