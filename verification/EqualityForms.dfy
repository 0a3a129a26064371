/**
 Equality of property values by cases, without normal forms; and what lies inside a value by chains of lists and
 maps.
*/
module EqualityForms {
  import opened ByteStrings
  import opened PropertyEncoding
  import opened PropertySlices
  import opened PropertyHash
  import opened PropertyEquality

  // ---------- equality ----------

  /** Equal bits, or two NaNs, or two zeros. */
  predicate SameFloat(signBit: int, infinity: int, a: int, b: int) {
    var x, y := if a >= signBit then a - signBit else a, if b >= signBit then b - signBit else b;
    a == b || (x > infinity && y > infinity) || (x == 0 && y == 0)
  }

  predicate SameScalar(k: Kind, a: int, b: int) {
    match k
    case KFloat32 => SameFloat(0x8000_0000, 0x7F80_0000, a, b)
    case KFloat64 => SameFloat(0x8000_0000_0000_0000, 0x7FF0_0000_0000_0000, a, b)
    case _ => a == b
  }

  /** Equality by cases: of one type, and then scalar by scalar, element by element and entry by entry. */
  ghost predicate Alike(a: Value, b: Value)
    decreases a
  {
    match a
    case Scalar(k, n) => b.Scalar? && b.kind == k && SameScalar(k, n, b.n)
    case Fixed(e, ns) =>
      b.Fixed? && b.e == e && |b.ns| == |ns| && forall i :: 0 <= i < |ns| ==> SameScalar(KindOf(e), ns[i], b.ns[i])
    case Any(vs) => b.Any? && |b.vs| == |vs| && forall i :: 0 <= i < |vs| ==> Alike(vs[i], b.vs[i])
    case MapAny(m) => b.MapAny? && b.m.Keys == m.Keys && forall k :: k in m ==> Alike(m[k], b.m[k])
    case _ => a == b
  }

  lemma Float32Same(a: int, b: int)
    requires 0 <= a < 0x1_0000_0000 && 0 <= b < 0x1_0000_0000
    ensures Canonical(KFloat32, a) == Canonical(KFloat32, b) <==> SameScalar(KFloat32, a, b)
  {
  }

  lemma Float64Same(a: int, b: int)
    requires 0 <= a < 0x1_0000_0000_0000_0000 && 0 <= b < 0x1_0000_0000_0000_0000
    ensures Canonical(KFloat64, a) == Canonical(KFloat64, b) <==> SameScalar(KFloat64, a, b)
  {
  }

  lemma FloatSize(k: Kind, n: int)
    requires InRange(k, n)
    ensures k == KFloat32 ==> 0 <= n < 0x1_0000_0000
    ensures k == KFloat64 ==> 0 <= n < 0x1_0000_0000_0000_0000
  {
    if IsFloat(k) {
      FloatRange(k, n);
    }
  }

  lemma CanonicalIsSame(k: Kind, a: int, b: int)
    requires InRange(k, a) && InRange(k, b)
    ensures Normalised(Scalar(k, a)) == Normalised(Scalar(k, b)) <==> SameScalar(k, a, b)
  {
    if IsFloat(k) {
      FloatSize(k, a);
      FloatSize(k, b);
      if k == KFloat32 {
        Float32Same(a, b);
      } else {
        Float64Same(a, b);
      }
    }
  }

  lemma FixedAlike(e: Elem, a: seq<int>, b: seq<int>)
    requires AllInRange(KindOf(e), a) && AllInRange(KindOf(e), b)
    ensures CanonicalAll(KindOf(e), a) == CanonicalAll(KindOf(e), b) <==>
            |a| == |b| && forall i :: 0 <= i < |a| ==> SameScalar(KindOf(e), a[i], b[i])
  {
    var k := KindOf(e);
    var x, y := CanonicalAll(k, a), CanonicalAll(k, b);
    assert |x| == |a| && |y| == |b|;
    if |a| == |b| {
      forall i | 0 <= i < |a|
        ensures x[i] == y[i] <==> SameScalar(k, a[i], b[i])
      {
        CanonicalIsSame(k, a[i], b[i]);
      }
    }
  }

  lemma {:induction false} ListsAlike(a: Value, b: Value)
    requires a.Any? && b.Any? && Typed(a) && Typed(b)
    ensures Normalised(a) == Normalised(b) <==> Alike(a, b)
    decreases a, 0
  {
    var x, y := Normalised(a).vs, Normalised(b).vs;
    if |a.vs| == |b.vs| {
      forall i | 0 <= i < |a.vs|
        ensures x[i] == y[i] <==> Alike(a.vs[i], b.vs[i])
      {
        EqualIffAlike(a.vs[i], b.vs[i]);
      }
    } else {
      assert |x| != |y|;
    }
  }

  lemma {:induction false} MapsAlike(a: Value, b: Value)
    requires a.MapAny? && b.MapAny? && Typed(a) && Typed(b)
    ensures Normalised(a) == Normalised(b) <==> Alike(a, b)
    decreases a, 0
  {
    var x, y := Normalised(a).m, Normalised(b).m;
    assert x.Keys == a.m.Keys && y.Keys == b.m.Keys;
    if a.m.Keys == b.m.Keys {
      forall k | k in a.m
        ensures x[k] == y[k] <==> Alike(a.m[k], b.m[k])
      {
        EqualIffAlike(a.m[k], b.m[k]);
      }
      if Alike(a, b) {
        assert x == y;
      }
    }
  }

  /** Property equality, which compares normal forms, is equality by cases. */
  lemma {:induction false} EqualIffAlike(a: Value, b: Value)
    requires Typed(a) && Typed(b)
    ensures Normalised(a) == Normalised(b) <==> Alike(a, b)
    decreases a, 1
  {
    NormalisedType(a);
    NormalisedType(b);
    if TypeOf(a) == TypeOf(b) {
      if a.Scalar? {
        CanonicalIsSame(a.kind, a.n, b.n);
      } else if a.Fixed? && b.Fixed? {
        FixedAlike(a.e, a.ns, b.ns);
      } else if a.Any? && b.Any? {
        ListsAlike(a, b);
      } else if a.MapAny? && b.MapAny? {
        MapsAlike(a, b);
      }
    }
  }

  // ---------- values inside values ----------

  predicate IsOpaque(v: Value) { v.Temporal? || v.Custom? }

  lemma {:induction false} ChainToOpaque(v: Value) returns (chain: seq<Value>)
    requires HoldsOpaque(v)
    ensures Chain(chain) && chain[0] == v && IsOpaque(chain[|chain| - 1])
    decreases v
  {
    if v.Temporal? || v.Custom? {
      chain := [v];
    } else if v.Any? {
      var i :| 0 <= i < |v.vs| && HoldsOpaque(v.vs[i]);
      var rest := ChainToOpaque(v.vs[i]);
      chain := [v] + rest;
    } else {
      var k :| k in v.m && HoldsOpaque(v.m[k]);
      var rest := ChainToOpaque(v.m[k]);
      chain := [v] + rest;
    }
  }

  lemma {:induction false} ChainHolds(chain: seq<Value>)
    requires Chain(chain) && IsOpaque(chain[|chain| - 1])
    ensures HoldsOpaque(chain[0])
    decreases |chain|
  {
    if |chain| > 1 {
      var rest := chain[1..];
      assert Chain(rest) by {
        forall i | 0 < i < |rest|
          ensures DirectlyIn(rest[i], rest[i - 1])
        {
          assert DirectlyIn(chain[i + 1], chain[i]);
        }
      }
      ChainHolds(rest);
      assert DirectlyIn(chain[1], chain[0]);
    }
  }

  /** Hashing runs foreign code exactly if a chain of lists and maps leads to a temporal or custom value. */
  lemma OpaqueIffReachable(v: Value)
    ensures HoldsOpaque(v) <==>
            exists chain :: Chain(chain) && chain[0] == v && IsOpaque(chain[|chain| - 1])
  {
    if HoldsOpaque(v) {
      var chain := ChainToOpaque(v);
    }
    if chain :| Chain(chain) && chain[0] == v && IsOpaque(chain[|chain| - 1]) {
      ChainHolds(chain);
    }
  }
}
