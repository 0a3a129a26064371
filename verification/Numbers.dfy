/**
 Numbers of the twelve stored widths: exact equality and exact ordering.

 The program rounds integers to float64 and float64 to float32 and compares the results; the
 lemmas show that it thereby decides equality and order of the exact mathematical values.
*/
module Numbers {
  import opened Options
  import opened Dyadic

  // ---------- floats ----------

  const UNIT: nat := 1074

  /** The number 1, in units of 2^-1074. */
  function One(): nat { Pow2(UNIT) }

  /** A float by value; Fin(n) is n * 2^-1074. The sign of zero is not kept: no operation here reads it. */
  datatype Float = NaN | Inf(neg: bool) | Fin(n: int)

  function Abs(n: int): nat { if n < 0 then -n else n }

  function Signed(n: int, magnitude: int): int { if n < 0 then -magnitude else magnitude }

  const P64: nat := 53
  const TOP64: nat := 2045
  const P32: nat := 24
  const LEAST32: nat := 925
  const TOP32: nat := 1178

  /** The largest finite magnitude with p significant bits and greatest exponent top. */
  function MaxFinite(p: nat, top: nat): int { (Pow2(p) - 1) * Pow2(top) }

  ghost predicate IsFloat64(f: Float) {
    f.Fin? ==> Fits(Abs(f.n), P64, 0) && Abs(f.n) <= MaxFinite(P64, TOP64)
  }

  ghost predicate IsFloat32(f: Float) {
    f.Fin? ==> Fits(Abs(f.n), P32, LEAST32) && Abs(f.n) <= MaxFinite(P32, TOP32)
  }

  /** The float64 conversion of an integer: round to nearest, ties to even. */
  function IntToFloat64(i: int): Float {
    Fin(Signed(i, RoundTo(Abs(i) * One(), P64, 0)))
  }

  /** The float32 conversion of a float64. */
  function ToFloat32(f: Float): Float {
    if !f.Fin? then f else
    var m := RoundTo(Abs(f.n), P32, LEAST32);
    if m > MaxFinite(P32, TOP32) then Inf(f.n < 0) else Fin(Signed(f.n, m))
  }

  /** n / c without its fraction. */
  function Quotient(n: int, c: nat): int
    requires c > 0
  {
    if n >= 0 then n / c else -(-n / c)
  }

  lemma QuotientBounds(n: int, c: nat)
    requires c > 0
    ensures n >= 0 ==> Quotient(n, c) * c <= n < (Quotient(n, c) + 1) * c && Quotient(n, c) >= 0
    ensures n < 0 ==> (Quotient(n, c) - 1) * c < n <= Quotient(n, c) * c && Quotient(n, c) <= 0
  {
    var a := Abs(n);
    assert a == (a / c) * c + a % c;
  }

  lemma QuotientOfMultiple(n: int, m: int, c: nat)
    requires c > 0 && n == m * c
    ensures Quotient(n, c) == m
  {
    MulKeepsStrictOrder(m, 0, c);
    var a := Abs(m);
    assert Abs(n) == a * c;
    ExactQuotient(a, c);
  }

  lemma Float32ExactIff(f: Float)
    requires IsFloat64(f) && !f.NaN?
    ensures ToFloat32(f) == f <==> IsFloat32(f)
  {
    if f.Fin? {
      RoundingExactIffFits(Abs(f.n), P32, LEAST32);
    }
  }

  lemma Pow2Of64()
    ensures Pow2(64) == 0x1_0000_0000_0000_0000
  {
    assert Pow2(1) == 2 && Pow2(2) == 4 && Pow2(3) == 8 && Pow2(4) == 16;
    Pow2Add(4, 4);
    Pow2Add(8, 8);
    Pow2Add(16, 16);
    Pow2Add(32, 32);
  }

  lemma BelowMaxFinite(a: nat, e: nat, u: nat, p: nat, top: nat)
    requires a <= Pow2(e) && e + u < top && p > 0
    ensures a * Pow2(u) <= MaxFinite(p, top)
  {
    MulKeepsOrder(a, Pow2(e), Pow2(u));
    Pow2Add(e, u);
    Pow2Grows(e + u, top);
    Pow2Grows(0, p);
    MulKeepsOrder(1, Pow2(p) - 1, Pow2(top));
  }

  lemma InFloatRange(a: nat)
    requires a <= 0x1_0000_0000_0000_0000
    ensures a * One() <= MaxFinite(P64, TOP64)
  {
    Pow2Of64();
    BelowMaxFinite(a, 64, UNIT, P64, TOP64);
  }

  lemma SignedTimes(i: int, m: nat, c: nat)
    requires c > 0
    ensures Signed(i, m * c) == Signed(i, m) * c && Abs(i * c) == Abs(i) * c
    ensures i * c == Signed(i, Abs(i) * c)
  {
    MulKeepsStrictOrder(i, 0, c);
  }

  lemma SameSign(i: int, m: nat)
    ensures Signed(i, m) == i <==> m == Abs(i)
  {
  }

  // The rounded integer is again an integer.
  lemma IntToFloat64IsWhole(i: int) returns (m: nat)
    ensures IntToFloat64(i).n == Signed(i, m) * One() && RoundTo(Abs(i) * One(), P64, 0) == m * One()
  {
    m := RoundingKeepsMultiples(Abs(i), UNIT, P64, 0);
    SignedTimes(i, m, One());
  }

  /** An integer up to 2^64 survives the trip through float64 exactly if some float64 holds it. */
  lemma IntToFloat64ExactIff(i: int)
    requires Abs(i) <= 0x1_0000_0000_0000_0000
    ensures IntToFloat64(i).n == i * One() <==> IsFloat64(Fin(i * One()))
    ensures Quotient(IntToFloat64(i).n, One()) == i <==> IntToFloat64(i).n == i * One()
  {
    var c := One();
    var m := IntToFloat64IsWhole(i);
    QuotientOfMultiple(IntToFloat64(i).n, Signed(i, m), c);
    MulKeepsStrictOrder(Signed(i, m), i, c);
    SameSign(i, m);
    SignedTimes(i, m, c);
    MulKeepsStrictOrder(m, Abs(i), c);
    RoundingExactIffFits(Abs(i) * c, P64, 0);
    InFloatRange(Abs(i));
  }

  // ---------- stored values ----------

  /** Integer widths; Native is int and uint, which have 64 bits. */
  datatype Width = Native | W8 | W16 | W32 | W64

  function Span(w: Width): int {
    match w
    case W8 => 0x100
    case W16 => 0x1_0000
    case W32 => 0x1_0000_0000
    case W64 => 0x1_0000_0000_0000_0000
    case Native => 0x1_0000_0000_0000_0000
  }

  predicate FitsSigned(w: Width, i: int) { -Span(w) / 2 <= i < Span(w) / 2 }

  predicate FitsUnsigned(w: Width, u: int) { 0 <= u < Span(w) }

  datatype Value =
    | Nil
    | Int(w: Width, i: int)
    | Uint(w: Width, u: int)
    | Float32(f: Float)
    | Float64(f: Float)
    | Text(text: string)
    | Temporal(kind: nat, text: string)
    | Bool(b: bool)
    | Composite  // a list, a map or any other value without an index key

  /** Values the type system of the program admits. */
  ghost predicate Legal(v: Value) {
    match v
    case Int(w, i) => FitsSigned(w, i)
    case Uint(w, u) => FitsUnsigned(w, u)
    case Float32(f) => IsFloat32(f)
    case Float64(f) => IsFloat64(f)
    case _ => true
  }

  predicate IsNumber(v: Value) { v.Int? || v.Uint? || v.Float32? || v.Float64? }

  /** The mathematical value of a number, in units of 2^-1074. */
  datatype Exact = Finite(n: int) | Infinite(neg: bool)

  function ExactFloat(f: Float): Option<Exact> {
    match f
    case NaN => None
    case Inf(neg) => Some(Infinite(neg))
    case Fin(n) => Some(Finite(n))
  }

  function ExactValue(v: Value): Option<Exact> {
    match v
    case Int(_, i) => Some(Finite(i * One()))
    case Uint(_, u) => Some(Finite(u * One()))
    case Float32(f) => ExactFloat(f)
    case Float64(f) => ExactFloat(f)
    case _ => None
  }

  /** Both are numbers, neither is NaN, and the exact values agree. */
  predicate SameNumber(a: Value, b: Value) {
    ExactValue(a).Some? && ExactValue(a) == ExactValue(b)
  }

  // ---------- the stored forms of a number ----------

  function AppendFloatWidths(out: seq<Value>, f: Float): seq<Value> {
    var out := out + [Float64(f)];
    if ToFloat32(f) == f then out + [Float32(ToFloat32(f))] else out
  }

  function AppendSignedWidths(out: seq<Value>, i: int): seq<Value> {
    var out := out + [Int(W64, i)];
    var out := if FitsSigned(Native, i) then out + [Int(Native, i)] else out;
    var out := if FitsSigned(W32, i) then out + [Int(W32, i)] else out;
    var out := if FitsSigned(W16, i) then out + [Int(W16, i)] else out;
    if FitsSigned(W8, i) then out + [Int(W8, i)] else out
  }

  function AppendUnsignedWidths(out: seq<Value>, u: int): seq<Value> {
    var out := out + [Uint(W64, u)];
    var out := if FitsUnsigned(Native, u) then out + [Uint(Native, u)] else out;
    var out := if FitsUnsigned(W32, u) then out + [Uint(W32, u)] else out;
    var out := if FitsUnsigned(W16, u) then out + [Uint(W16, u)] else out;
    if FitsUnsigned(W8, u) then out + [Uint(W8, u)] else out
  }

  const TWO_TO_63: int := 0x8000_0000_0000_0000
  const TWO_TO_64: int := 0x1_0000_0000_0000_0000

  function EqualUint(u: int): seq<Value> {
    var out := if u < TWO_TO_63 then AppendSignedWidths([], u) else [];
    var out := AppendUnsignedWidths(out, u);
    var f := IntToFloat64(u);
    if f.n < TWO_TO_64 * One() && Quotient(f.n, One()) == u then AppendFloatWidths(out, f) else out
  }

  function EqualInt(i: int): seq<Value> {
    if i >= 0 then EqualUint(i) else
    var out := AppendSignedWidths([], i);
    var f := IntToFloat64(i);
    if f.n >= -TWO_TO_63 * One() && Quotient(f.n, One()) == i then AppendFloatWidths(out, f) else out
  }

  /** The integer widths of the whole float n == t * One(). */
  function AppendWhole(out: seq<Value>, n: int, t: int): seq<Value> {
    if n < 0 && n >= -TWO_TO_63 * One() then AppendSignedWidths(out, t)
    else if n >= 0 && n < TWO_TO_64 * One() then
      var out := if t < TWO_TO_63 then AppendSignedWidths(out, t) else out;
      AppendUnsignedWidths(out, t)
    else out
  }

  function EqualFloat(f: Float): seq<Value> {
    if f.NaN? then [] else
    var out := AppendFloatWidths([], f);
    if f.Inf? then out else
    var t := Quotient(f.n, One());
    if f.n != t * One() then out else AppendWhole(out, f.n, t)
  }

  /** Every stored value that equals v under property equality, one per index key. */
  function EqualIndexValues(v: Value): seq<Value> {
    match v
    case Nil => []
    case Int(_, i) => EqualInt(i)
    case Uint(_, u) => EqualUint(u)
    case Float32(f) => EqualFloat(f)
    case Float64(f) => EqualFloat(f)
    case Composite => []
    case _ => [v]
  }

  // ---------- the forms are exactly the equal values ----------

  lemma SignedForms(out: seq<Value>, i: int, x: Value)
    ensures x in AppendSignedWidths(out, i) <==> x in out || (x.Int? && x.i == i && (x.w.W64? || FitsSigned(x.w, i)))
  {
  }

  lemma UnsignedForms(out: seq<Value>, u: int, x: Value)
    ensures x in AppendUnsignedWidths(out, u)
        <==> x in out || (x.Uint? && x.u == u && (x.w.W64? || FitsUnsigned(x.w, u)))
  {
  }

  lemma FloatForms(out: seq<Value>, f: Float, x: Value)
    requires IsFloat64(f) && !f.NaN?
    ensures x in AppendFloatWidths(out, f) <==> x in out || x == Float64(f) || (x == Float32(f) && IsFloat32(f))
  {
    Float32ExactIff(f);
  }

  // Which legal values have the exact value of the integer i.
  lemma HoldsInteger(i: int, x: Value)
    ensures ExactValue(x) == Some(Finite(i * One())) <==>
      || (x.Int? && x.i == i) || (x.Uint? && x.u == i)
      || ((x.Float32? || x.Float64?) && x.f == Fin(i * One()))
  {
    if x.Int? {
      MulKeepsStrictOrder(x.i, i, One());
    } else if x.Uint? {
      MulKeepsStrictOrder(x.u, i, One());
    }
  }

  lemma ProductGrows(a: int, b: int, c: int, d: int)
    requires 0 <= a <= b && 0 <= c <= d
    ensures a * c <= b * d
  {
    MulKeepsOrder(a, b, c);
    MulKeepsOrder(c, d, b);
  }

  lemma MaxFiniteGrows(p: nat, q: nat, top: nat, top': nat)
    requires p < q && top < top'
    ensures MaxFinite(p, top) <= MaxFinite(q, top')
  {
    Pow2Grows(p, q);
    Pow2Grows(top, top');
    ProductGrows(Pow2(p) - 1, Pow2(q) - 1, Pow2(top), Pow2(top'));
  }

  lemma FitsMore(n: nat, p: nat, q: nat, kmin: nat)
    requires p < q && Fits(n, p, kmin)
    ensures Fits(n, q, 0)
  {
    var m: nat, k: nat :| FitsAs(n, p, kmin, m, k);
    Pow2Grows(p, q);
    assert FitsAs(n, q, 0, m, k);
  }

  lemma Float32IsFloat64(f: Float)
    requires IsFloat32(f)
    ensures IsFloat64(f)
  {
    if f.Fin? {
      FitsMore(Abs(f.n), P32, P64, LEAST32);
      MaxFiniteGrows(P32, P64, TOP32, TOP64);
    }
  }

  lemma UintFormsExact(u: int, x: Value)
    requires 0 <= u < TWO_TO_64 && Legal(x)
    ensures x in EqualUint(u) <==> ExactValue(x) == Some(Finite(u * One()))
  {
    var c := One();
    var signed := if u < TWO_TO_63 then AppendSignedWidths([], u) else [];
    var f := IntToFloat64(u);
    SignedForms([], u, x);
    UnsignedForms(signed, u, x);
    IntToFloat64ExactIff(u);
    MulKeepsStrictOrder(u, TWO_TO_64, c);
    if f.n == u * c {
      FloatForms(AppendUnsignedWidths(signed, u), f, x);
    }
    HoldsInteger(u, x);
    if x.Float32? {
      Float32IsFloat64(x.f);
    }
  }

  lemma IntFormsExact(i: int, x: Value)
    requires -TWO_TO_63 <= i < TWO_TO_63 && Legal(x)
    ensures x in EqualInt(i) <==> ExactValue(x) == Some(Finite(i * One()))
  {
    if i >= 0 {
      UintFormsExact(i, x);
    } else {
      var c := One();
      var f := IntToFloat64(i);
      SignedForms([], i, x);
      IntToFloat64ExactIff(i);
      MulKeepsOrder(-TWO_TO_63, i, c);
      if f.n == i * c {
        FloatForms(AppendSignedWidths([], i), f, x);
      }
      HoldsInteger(i, x);
      if x.Float32? {
        Float32IsFloat64(x.f);
      }
    }
  }

  // An integer with the value of a float is the float's quotient, and the float is whole.
  lemma WholeFloat(n: int, x: Value)
    requires (x.Int? || x.Uint?) && ExactValue(x) == Some(Finite(n))
    ensures var t := Quotient(n, One()); n == t * One() && t == (if x.Int? then x.i else x.u)
  {
    QuotientOfMultiple(n, if x.Int? then x.i else x.u, One());
  }

  lemma QuotientRange(n: int, t: int, c: nat)
    requires c > 0 && n == t * c
    ensures n < 0 <==> t < 0
    ensures n >= -TWO_TO_63 * c <==> t >= -TWO_TO_63
    ensures n < TWO_TO_64 * c <==> t < TWO_TO_64
  {
    MulKeepsStrictOrder(t, 0, c);
    MulKeepsStrictOrder(t, -TWO_TO_63, c);
    MulKeepsStrictOrder(t, TWO_TO_64, c);
  }

  // The integer forms a whole float adds to its float forms.
  lemma WholeForms(out: seq<Value>, n: int, t: int, x: Value)
    requires n == t * One()
    ensures x in AppendWhole(out, n, t) <==>
      || x in out
      || (x.Int? && x.i == t && -TWO_TO_63 <= t < TWO_TO_63 && (x.w.W64? || FitsSigned(x.w, t)))
      || (x.Uint? && x.u == t && 0 <= t < TWO_TO_64 && (x.w.W64? || FitsUnsigned(x.w, t)))
  {
    QuotientRange(n, t, One());
    SignedForms(out, t, x);
    UnsignedForms(out, t, x);
    UnsignedForms(AppendSignedWidths(out, t), t, x);
  }

  lemma IntegerOfFloat(n: int, out: seq<Value>, x: Value)
    requires (x.Int? && FitsSigned(x.w, x.i)) || (x.Uint? && FitsUnsigned(x.w, x.u))
    requires out == AppendFloatWidths([], Fin(n)) && x !in out
    ensures x in EqualFloat(Fin(n)) <==> ExactValue(x) == Some(Finite(n))
  {
    var t := Quotient(n, One());
    if ExactValue(x) == Some(Finite(n)) {
      WholeFloat(n, x);
    }
    if n == t * One() {
      WholeForms(out, n, t, x);
      HoldsInteger(t, x);
    }
  }

  lemma FloatOfFloat(n: int, out: seq<Value>, x: Value)
    requires !x.Int? && !x.Uint? && out == AppendFloatWidths([], Fin(n))
    ensures x in EqualFloat(Fin(n)) <==> x in out
  {
    var t := Quotient(n, One());
    if n == t * One() {
      WholeForms(out, n, t, x);
    }
  }

  lemma FloatValueIsFloat(f: Float, x: Value)
    requires !f.NaN?
    ensures !x.Int? && !x.Uint? ==> (ExactValue(x) == ExactFloat(f) <==> x == Float64(f) || x == Float32(f))
  {
  }

  lemma FiniteFloatForms(n: int, x: Value)
    requires IsFloat64(Fin(n)) && Legal(x)
    ensures x in EqualFloat(Fin(n)) <==> ExactValue(x) == Some(Finite(n))
  {
    var out := AppendFloatWidths([], Fin(n));
    FloatForms([], Fin(n), x);
    if x.Int? || x.Uint? {
      IntegerOfFloat(n, out, x);
    } else {
      FloatOfFloat(n, out, x);
      FloatValueIsFloat(Fin(n), x);
    }
  }

  lemma FloatFormsExact(f: Float, x: Value)
    requires IsFloat64(f) && !f.NaN? && Legal(x)
    ensures x in EqualFloat(f) <==> ExactValue(x) == ExactFloat(f)
  {
    if f.Fin? {
      FiniteFloatForms(f.n, x);
    } else {
      FloatForms([], f, x);
      FloatValueIsFloat(f, x);
    }
  }

  /** The forms of a number are exactly the legal values of the same exact value; NaN has none. */
  lemma FormsAreTheEqualValues(v: Value, x: Value)
    requires Legal(v) && IsNumber(v) && Legal(x)
    ensures x in EqualIndexValues(v) <==> SameNumber(v, x)
  {
    match v
    case Int(_, i) => IntFormsExact(i, x);
    case Uint(_, u) => UintFormsExact(u, x);
    case Float32(f) =>
      Float32IsFloat64(f);
      if !f.NaN? { FloatFormsExact(f, x); }
    case Float64(f) => if !f.NaN? { FloatFormsExact(f, x); }
  }

  // ---------- one form per width ----------

  ghost predicate Distinct(s: seq<Value>) {
    forall i, j :: 0 <= i < j < |s| ==> s[i] != s[j]
  }

  lemma DistinctSnoc(s: seq<Value>, x: Value)
    requires Distinct(s) && x !in s
    ensures Distinct(s + [x])
  {
  }

  lemma SignedDistinct(out: seq<Value>, i: int)
    requires Distinct(out) && forall x :: x in out ==> !x.Int?
    ensures Distinct(AppendSignedWidths(out, i)) && |AppendSignedWidths(out, i)| <= |out| + 5
  {
    var o := out + [Int(W64, i)];
    DistinctSnoc(out, Int(W64, i));
    DistinctSnoc(o, Int(Native, i));
    o := if FitsSigned(Native, i) then o + [Int(Native, i)] else o;
    DistinctSnoc(o, Int(W32, i));
    o := if FitsSigned(W32, i) then o + [Int(W32, i)] else o;
    DistinctSnoc(o, Int(W16, i));
    o := if FitsSigned(W16, i) then o + [Int(W16, i)] else o;
    DistinctSnoc(o, Int(W8, i));
  }

  lemma UnsignedDistinct(out: seq<Value>, u: int)
    requires Distinct(out) && forall x :: x in out ==> !x.Uint?
    ensures Distinct(AppendUnsignedWidths(out, u)) && |AppendUnsignedWidths(out, u)| <= |out| + 5
  {
    var o := out + [Uint(W64, u)];
    DistinctSnoc(out, Uint(W64, u));
    DistinctSnoc(o, Uint(Native, u));
    o := if FitsUnsigned(Native, u) then o + [Uint(Native, u)] else o;
    DistinctSnoc(o, Uint(W32, u));
    o := if FitsUnsigned(W32, u) then o + [Uint(W32, u)] else o;
    DistinctSnoc(o, Uint(W16, u));
    o := if FitsUnsigned(W16, u) then o + [Uint(W16, u)] else o;
    DistinctSnoc(o, Uint(W8, u));
  }

  lemma FloatDistinct(out: seq<Value>, f: Float)
    requires Distinct(out) && forall x :: x in out ==> !x.Float32? && !x.Float64?
    ensures Distinct(AppendFloatWidths(out, f)) && |AppendFloatWidths(out, f)| <= |out| + 2
  {
    DistinctSnoc(out, Float64(f));
    DistinctSnoc(out + [Float64(f)], Float32(ToFloat32(f)));
  }

  lemma IntegerFormsDistinct(out: seq<Value>, u: int, signed: bool)
    requires Distinct(out) && forall x :: x in out ==> !x.Int? && !x.Uint?
    ensures var s := if signed then AppendSignedWidths(out, u) else out;
            var r := AppendUnsignedWidths(s, u);
            Distinct(r) && |r| <= |out| + 10 && forall x :: x in r && x !in out ==> x.Int? || x.Uint?
  {
    var s := if signed then AppendSignedWidths(out, u) else out;
    SignedDistinct(out, u);
    forall x
      ensures x in s ==> x in out || x.Int?
      ensures x in AppendUnsignedWidths(s, u) ==> x in s || x.Uint?
    {
      SignedForms(out, u, x);
      UnsignedForms(s, u, x);
    }
    UnsignedDistinct(s, u);
  }

  lemma UintFormsDistinct(u: int)
    ensures Distinct(EqualUint(u)) && |EqualUint(u)| <= 12
  {
    IntegerFormsDistinct([], u, u < TWO_TO_63);
    var s := if u < TWO_TO_63 then AppendSignedWidths([], u) else [];
    FloatDistinct(AppendUnsignedWidths(s, u), IntToFloat64(u));
  }

  lemma FloatFormsDistinct(f: Float)
    ensures Distinct(EqualFloat(f)) && |EqualFloat(f)| <= 12
  {
    var out := AppendFloatWidths([], f);
    FloatDistinct([], f);
    if f.Fin? {
      var t := Quotient(f.n, One());
      assert forall x :: x in out ==> x.Float64? || x.Float32?;
      IntegerFormsDistinct(out, t, t < TWO_TO_63);
      SignedDistinct(out, t);
    }
  }

  /** No form is listed twice and there are at most twelve. */
  lemma FormsDistinct(v: Value)
    ensures Distinct(EqualIndexValues(v)) && |EqualIndexValues(v)| <= 12
  {
    match v
    case Uint(_, u) => UintFormsDistinct(u);
    case Float32(f) => FloatFormsDistinct(f);
    case Float64(f) => FloatFormsDistinct(f);
    case Int(_, i) =>
      UintFormsDistinct(i);
      SignedDistinct([], i);
      forall x
        ensures x in AppendSignedWidths([], i) ==> x.Int?
      {
        SignedForms([], i, x);
      }
      FloatDistinct(AppendSignedWidths([], i), IntToFloat64(i));
    case _ =>
  }

  // ---------- exact comparison ----------

  /** The IEEE order; NaN is below nothing and above nothing. */
  predicate Less(a: Float, b: Float) {
    match a
    case NaN => false
    case Inf(neg) => neg && !b.NaN? && b != Inf(true)
    case Fin(n) => (b.Fin? && n < b.n) || b == Inf(false)
  }

  function CompareFloat(a: Float, f: Float): Option<int> {
    if a.NaN? then None
    else if Less(a, f) then Some(-1)
    else if Less(f, a) then Some(1)
    else Some(0)
  }

  function CompareInt(i: int, f: Float): int
    requires !f.NaN?
  {
    if !Less(f, Fin(TWO_TO_63 * One())) then -1
    else if Less(f, Fin(-TWO_TO_63 * One())) then 1
    else
      var ti := if f.Fin? then Quotient(f.n, One()) else 0;
      if i < ti then -1
      else if i > ti then 1
      else if Less(Fin(ti * One()), f) then -1
      else if Less(f, Fin(ti * One())) then 1
      else 0
  }

  function CompareUint(u: int, f: Float): int
    requires !f.NaN?
  {
    if Less(f, Fin(0)) then 1
    else if !Less(f, Fin(TWO_TO_64 * One())) then -1
    else
      var tu := if f.Fin? then Quotient(f.n, One()) else 0;
      if u < tu then -1
      else if u > tu then 1
      else if Less(Fin(tu * One()), f) then -1
      else 0
  }

  function CompareNumber(v: Value, f: Float): Option<int> {
    if f.NaN? then None else
    match v
    case Float32(x) => CompareFloat(x, f)
    case Float64(x) => CompareFloat(x, f)
    case Uint(_, u) => Some(CompareUint(u, f))
    case Int(_, i) => Some(CompareInt(i, f))
    case _ => None
  }

  /** The order of exact values, infinities at the ends. */
  function ExactSign(a: Exact, b: Exact): int {
    match (a, b)
    case (Finite(m), Finite(n)) => if m < n then -1 else if m > n then 1 else 0
    case (Finite(_), Infinite(neg)) => if neg then 1 else -1
    case (Infinite(neg), Finite(_)) => if neg then -1 else 1
    case (Infinite(neg), Infinite(neg')) => if neg == neg' then 0 else if neg then -1 else 1
  }

  // Comparing with the quotient first, then with the fraction, is comparing exactly.
  lemma QuotientDecides(i: int, n: int, c: nat)
    requires c > 0
    ensures var t := Quotient(n, c);
            && (i < t ==> i * c < n) && (i > t ==> i * c > n)
            && (i == t ==> (t * c < n <==> i * c < n) && (n < t * c <==> n < i * c))
  {
    var t := Quotient(n, c);
    QuotientBounds(n, c);
    if i < t {
      MulKeepsOrder(i + 1, t, c);
    } else if i > t {
      MulKeepsOrder(t + 1, i, c);
    }
  }

  lemma CompareIntExact(i: int, f: Float)
    requires -TWO_TO_63 <= i < TWO_TO_63 && !f.NaN?
    ensures CompareInt(i, f) == ExactSign(Finite(i * One()), ExactFloat(f).value)
  {
    MulKeepsStrictOrder(i, TWO_TO_63, One());
    MulKeepsOrder(-TWO_TO_63, i, One());
    if f.Fin? {
      QuotientDecides(i, f.n, One());
    }
  }

  lemma CompareUintExact(u: int, f: Float)
    requires 0 <= u < TWO_TO_64 && !f.NaN?
    ensures CompareUint(u, f) == ExactSign(Finite(u * One()), ExactFloat(f).value)
  {
    MulKeepsStrictOrder(u, TWO_TO_64, One());
    MulKeepsOrder(0, u, One());
    if f.Fin? {
      QuotientDecides(u, f.n, One());
      QuotientBounds(f.n, One());
    }
  }

  lemma CompareFloatExact(a: Float, f: Float)
    requires !f.NaN?
    ensures CompareFloat(a, f) == if a.NaN? then None else Some(ExactSign(ExactFloat(a).value, ExactFloat(f).value))
  {
  }

  predicate InWidth(v: Value) {
    (v.Int? ==> FitsSigned(v.w, v.i)) && (v.Uint? ==> FitsUnsigned(v.w, v.u))
  }

  /**
   CompareNumber is the sign of the exact difference, and declines exactly on NaN and on values that are not
   numbers.
  */
  lemma CompareNumberIsExact(v: Value, f: Float)
    requires InWidth(v)
    ensures CompareNumber(v, f) == if f.NaN? || ExactValue(v).None? then None
                                   else Some(ExactSign(ExactValue(v).value, ExactFloat(f).value))
  {
    if !f.NaN? {
      match v
      case Int(_, i) => CompareIntExact(i, f);
      case Uint(_, u) => CompareUintExact(u, f);
      case Float32(x) => CompareFloatExact(x, f);
      case Float64(x) => CompareFloatExact(x, f);
      case _ =>
    }
  }
}
