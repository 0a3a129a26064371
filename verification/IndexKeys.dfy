/**
 Index keys: the strings under which stored values are indexed.

 Keys of numbers are injective per width, so looking a key up among the keys of a value's forms
 decides exact numeric equality; the canonical key merges exactly the equal integers.
*/
module IndexKeys {
  import opened Options
  import opened Dyadic
  import opened Numbers

  // ---------- decimal text ----------

  function Digit(d: nat): char
    requires d < 10
  {
    ['0', '1', '2', '3', '4', '5', '6', '7', '8', '9'][d]
  }

  function DigitValue(c: char): int { c as int - '0' as int }

  predicate IsDigit(c: char) { '0' <= c <= '9' }

  lemma DigitRoundTrip(d: nat)
    requires d < 10
    ensures IsDigit(Digit(d)) && DigitValue(Digit(d)) == d
  {
  }

  function Digits(n: nat): (s: string)
    ensures s != []
  {
    if n < 10 then [Digit(n)] else Digits(n / 10) + [Digit(n % 10)]
  }

  predicate AllDigits(s: string) { forall i :: 0 <= i < |s| ==> IsDigit(s[i]) }

  function DecimalValue(s: string): nat
    requires AllDigits(s)
  {
    if s == [] then 0 else 10 * DecimalValue(s[..|s| - 1]) + DigitValue(s[|s| - 1])
  }

  lemma {:induction false} DigitsRoundTrip(n: nat)
    ensures AllDigits(Digits(n)) && DecimalValue(Digits(n)) == n
  {
    DigitRoundTrip(n % 10);
    if n < 10 {
      assert Digits(n)[..0] == [];
    } else {
      DigitsRoundTrip(n / 10);
      assert Digits(n)[..|Digits(n)| - 1] == Digits(n / 10);
    }
  }

  function IntText(i: int): string {
    if i < 0 then "-" + Digits(-i) else Digits(i)
  }

  /** strconv.ParseUint in base 10 and 64 bits; None is its error. */
  function ParseUint(s: string): Option<int> {
    if s == [] || !AllDigits(s) || DecimalValue(s) >= TWO_TO_64 then None else Some(DecimalValue(s))
  }

  /** strconv.ParseInt in base 10 and 64 bits; None is its error. */
  function ParseInt(s: string): Option<int> {
    if s == [] then None else
    var neg := s[0] == '-';
    var digits := if neg || s[0] == '+' then s[1..] else s;
    if digits == [] || !AllDigits(digits) then None else
    var n: int := DecimalValue(digits);
    if (if neg then n > TWO_TO_63 else n >= TWO_TO_63) then None
    else Some(if neg then -n else n)
  }

  lemma ParseUintText(u: int)
    requires 0 <= u < TWO_TO_64
    ensures ParseUint(IntText(u)) == Some(u)
  {
    DigitsRoundTrip(u);
  }

  lemma ParseIntText(i: int)
    requires -TWO_TO_63 <= i < TWO_TO_63
    ensures ParseInt(IntText(i)) == Some(i)
  {
    DigitsRoundTrip(if i < 0 then -i else i);
    if i < 0 {
      assert IntText(i)[1..] == Digits(-i);
    } else {
      assert IsDigit(Digits(i)[0]);
    }
  }

  /** Reads a text that IntText wrote, of any magnitude. */
  function TextValue(s: string): int {
    if s == [] then 0
    else if s[0] == '-' then (if AllDigits(s[1..]) then 0 - DecimalValue(s[1..]) else 0)
    else if AllDigits(s) then DecimalValue(s) else 0
  }

  lemma TextRoundTrip(i: int)
    ensures TextValue(IntText(i)) == i
  {
    DigitsRoundTrip(if i < 0 then -i else i);
    if i < 0 {
      assert IntText(i)[1..] == Digits(-i);
    } else {
      assert IsDigit(Digits(i)[0]);
    }
  }

  lemma IntTextInjective(i: int, j: int)
    ensures IntText(i) == IntText(j) <==> i == j
  {
    TextRoundTrip(i);
    TextRoundTrip(j);
  }

  // ---------- cutting at the first colon ----------

  /** The length of the part before the first colon; |s| where there is none. */
  function ColonAt(s: string): (k: nat)
    ensures k <= |s| && (k < |s| ==> s[k] == ':')
  {
    if s == [] || s[0] == ':' then 0 else 1 + ColonAt(s[1..])
  }

  function Tagged(prefix: string, payload: string): string { prefix + ":" + payload }

  lemma {:induction false} CutTagged(prefix: string, payload: string)
    requires ':' !in prefix
    ensures ColonAt(Tagged(prefix, payload)) == |prefix|
    decreases |prefix|
  {
    if prefix != [] {
      assert Tagged(prefix, payload)[1..] == Tagged(prefix[1..], payload);
      CutTagged(prefix[1..], payload);
    }
  }

  lemma TaggedInjective(p: string, x: string, q: string, y: string)
    requires ':' !in p && ':' !in q
    ensures Tagged(p, x) == Tagged(q, y) <==> p == q && x == y
  {
    CutTagged(p, x);
    CutTagged(q, y);
    assert Tagged(p, x)[..|p|] == p && Tagged(p, x)[|p| + 1..] == x;
    assert Tagged(q, y)[..|q|] == q && Tagged(q, y)[|q| + 1..] == y;
  }

  // ---------- keys ----------

  /** The shortest decimal rendering of floats, by width; a library function. */
  datatype Renderer = Renderer(f32: Float -> string, f64: Float -> string)

  /**
   The library renders different floats of one width differently, and only zero as "0" and only NaN as "nan" (lower
   case).
  */
  ghost predicate Faithful(r: Renderer) {
    && (forall x, y :: Shown(x) && Shown(y) && IsFloat64(x) && IsFloat64(y) && r.f64(x) == r.f64(y) ==> x == y)
    && (forall x, y :: Shown(x) && Shown(y) && IsFloat32(x) && IsFloat32(y) && r.f32(x) == r.f32(y) ==> x == y)
    && (forall x :: Shown(x) ==> r.f64(x) != "0" && r.f64(x) != "nan")
    && (forall x :: Shown(x) ==> r.f32(x) != "0" && r.f32(x) != "nan")
  }

  /** The floats the renderer is asked for. */
  predicate Shown(f: Float) { !f.NaN? && f != Fin(0) }

  /** A renderer that spells the scaled integer out. */
  function Spell(f: Float): string {
    match f
    case NaN => "?"
    case Inf(neg) => if neg then "-" else "+"
    case Fin(n) => "=" + IntText(n)
  }

  /** What is assumed of the library can be met. */
  lemma FaithfulRendererExists()
    ensures Faithful(Renderer(Spell, Spell))
  {
    forall x, y | Shown(x) && Shown(y) && Spell(x) == Spell(y)
      ensures x == y
    {
      SpellInjective(x, y);
    }
    forall x | Shown(x)
      ensures Spell(x) != "0" && Spell(x) != "nan"
    {
      assert Spell(x)[0] != '0' && Spell(x)[0] != 'n';
    }
  }

  lemma SpellInjective(x: Float, y: Float)
    requires Spell(x) == Spell(y)
    ensures x == y
  {
    assert Spell(x)[0] == Spell(y)[0];
    if x.Fin? && y.Fin? {
      assert Spell(x)[1..] == IntText(x.n) && Spell(y)[1..] == IntText(y.n);
      IntTextInjective(x.n, y.n);
    }
  }

  function FloatText(render: Float -> string, f: Float): string {
    if f == Fin(0) then "0" else if f.NaN? then "nan" else render(f)
  }

  function Prefix(v: Value): string {
    match v
    case Nil => ""
    case Composite => ""
    case Text(_) => "s"
    case Temporal(_, _) => "tv"
    case Bool(_) => "b"
    case Float32(_) => "f32"
    case Float64(_) => "f64"
    case Int(w, _) => (match w case Native => "i" case W8 => "i8" case W16 => "i16" case W32 => "i32" case W64 => "i64")
    case Uint(w, _) =>
      (match w case Native => "u" case W8 => "u8" case W16 => "u16" case W32 => "u32" case W64 => "u64")
  }

  function Payload(r: Renderer, v: Value): string {
    match v
    case Nil => ""
    case Composite => ""
    case Text(s) => s
    case Temporal(kind, s) => Tagged(Digits(kind), s)
    case Bool(b) => if b then "true" else "false"
    case Float32(f) => FloatText(r.f32, f)
    case Float64(f) => FloatText(r.f64, f)
    case Int(_, i) => IntText(i)
    case Uint(_, u) => IntText(u)
  }

  /** The index key of a value; "" where it has none. */
  function Key(r: Renderer, v: Value): string {
    if v.Nil? || v.Composite? then "" else Tagged(Prefix(v), Payload(r, v))
  }

  lemma PrefixHasNoColon(v: Value)
    ensures ':' !in Prefix(v)
  {
  }

  lemma KeyParts(r: Renderer, a: Value, b: Value)
    requires !a.Nil? && !a.Composite? && !b.Nil? && !b.Composite?
    ensures Key(r, a) == Key(r, b) <==> Prefix(a) == Prefix(b) && Payload(r, a) == Payload(r, b)
  {
    PrefixHasNoColon(a);
    PrefixHasNoColon(b);
    TaggedInjective(Prefix(a), Payload(r, a), Prefix(b), Payload(r, b));
  }

  lemma SamePrefixSameKind(a: Value, b: Value)
    requires IsNumber(a) && IsNumber(b)
    ensures Prefix(a) == Prefix(b) <==>
      || (a.Int? && b.Int? && a.w == b.w) || (a.Uint? && b.Uint? && a.w == b.w)
      || (a.Float32? && b.Float32?) || (a.Float64? && b.Float64?)
  {
    // Keys of different kinds differ in length or in some character.
    assert |Prefix(a)| > 0 && |Prefix(b)| > 0;
    assert Prefix(a) == Prefix(b) ==> Prefix(a)[0] == Prefix(b)[0];
    assert |Prefix(a)| == 3 && |Prefix(b)| == 3 && Prefix(a) == Prefix(b) ==> Prefix(a)[1] == Prefix(b)[1];
    assert |Prefix(a)| == 2 && |Prefix(b)| == 2 && Prefix(a) == Prefix(b) ==> Prefix(a)[1] == Prefix(b)[1];
  }

  /** Different numbers have different keys. */
  lemma NumberKeysInjective(r: Renderer, a: Value, b: Value)
    requires Faithful(r) && IsNumber(a) && IsNumber(b) && Legal(a) && Legal(b)
    ensures Key(r, a) == Key(r, b) <==> a == b
  {
    KeyParts(r, a, b);
    SamePrefixSameKind(a, b);
    if a.Int? && b.Int? {
      IntTextInjective(a.i, b.i);
    } else if a.Uint? && b.Uint? {
      IntTextInjective(a.u, b.u);
    }
  }

  // ---------- the equality of the graph's lookup doors ----------

  function KeysOf(r: Renderer, forms: seq<Value>): (keys: seq<string>)
    ensures |keys| == |forms| && forall i :: 0 <= i < |keys| ==> keys[i] == Key(r, forms[i])
  {
    seq(|forms|, i requires 0 <= i < |forms| => Key(r, forms[i]))
  }

  method ListKeys(r: Renderer, forms: seq<Value>) returns (keys: seq<string>)
    ensures keys == KeysOf(r, forms)
  {
    keys := [];
    for i := 0 to |forms|
      invariant |keys| == i && forall j :: 0 <= j < i ==> keys[j] == Key(r, forms[j])
    {
      keys := keys + [Key(r, forms[i])];
    }
  }

  predicate NumericEqual(r: Renderer, a: Value, b: Value) {
    IsNumber(b) && Key(r, b) in KeysOf(r, EqualIndexValues(a))
  }

  lemma UintFormsLegal(u: int, x: Value)
    requires 0 <= u < TWO_TO_64 && x in EqualUint(u)
    ensures Legal(x) && IsNumber(x)
  {
    var signed := if u < TWO_TO_63 then AppendSignedWidths([], u) else [];
    SignedForms([], u, x);
    UnsignedForms(signed, u, x);
    IntToFloat64ExactIff(u);
    if IntToFloat64(u).n == u * One() {
      FloatForms(AppendUnsignedWidths(signed, u), IntToFloat64(u), x);
    }
  }

  lemma NegativeFormsLegal(i: int, x: Value)
    requires -TWO_TO_63 <= i < 0 && x in EqualInt(i)
    ensures Legal(x) && IsNumber(x)
  {
    SignedForms([], i, x);
    IntToFloat64ExactIff(i);
    if IntToFloat64(i).n == i * One() {
      FloatForms(AppendSignedWidths([], i), IntToFloat64(i), x);
    }
  }

  lemma WholeFormsLegal(out: seq<Value>, n: int, t: int, x: Value)
    requires n == t * One() && x in AppendWhole(out, n, t) && x !in out
    ensures IsNumber(x) && InWidth(x) && (x.Int? || x.Uint?)
  {
    WholeForms(out, n, t, x);
  }

  lemma FloatFormsLegal(f: Float, x: Value)
    requires IsFloat64(f) && !f.NaN? && x in EqualFloat(f)
    ensures Legal(x) && IsNumber(x)
  {
    var out := AppendFloatWidths([], f);
    if x in out {
      FloatForms([], f, x);
    } else {
      WholeFormsLegal(out, f.n, Quotient(f.n, One()), x);
    }
  }

  lemma FormsLegal(v: Value, x: Value)
    requires Legal(v) && IsNumber(v) && x in EqualIndexValues(v)
    ensures Legal(x) && IsNumber(x)
  {
    match v
    case Uint(_, u) => UintFormsLegal(u, x);
    case Int(_, i) => if i >= 0 { UintFormsLegal(i, x); } else { NegativeFormsLegal(i, x); }
    case Float32(f) =>
      Float32IsFloat64(f);
      FloatFormsLegal(f, x);
    case Float64(f) => FloatFormsLegal(f, x);
  }

  /** NumericEqual is equality of exact values: no rounding, NaN equals nothing, infinities equal themselves. */
  lemma NumericEqualIsExact(r: Renderer, a: Value, b: Value)
    requires Faithful(r) && Legal(a) && Legal(b)
    ensures NumericEqual(r, a, b) <==> SameNumber(a, b)
  {
    if IsNumber(a) && IsNumber(b) {
      FormsAreTheEqualValues(a, b);
      var forms := EqualIndexValues(a);
      if NumericEqual(r, a, b) {
        var i :| 0 <= i < |forms| && KeysOf(r, forms)[i] == Key(r, b);
        FormsLegal(a, forms[i]);
        NumberKeysInjective(r, forms[i], b);
      }
      if b in forms {
        var i :| 0 <= i < |forms| && forms[i] == b;
        assert KeysOf(r, forms)[i] == Key(r, b);
      }
    } else if IsNumber(b) && EqualIndexValues(a) != [] {
      KeyParts(r, a, b);
      assert |Prefix(a)| > 0 && |Prefix(b)| > 0;
      assert KeysOf(r, EqualIndexValues(a)) == [Key(r, a)];
      OtherPrefix(a, b);
    }
  }

  lemma OtherPrefix(a: Value, b: Value)
    requires IsNumber(b) && (a.Text? || a.Temporal? || a.Bool?)
    ensures Prefix(a) != Prefix(b)
  {
    assert Prefix(a)[0] != Prefix(b)[0];
  }

  /**
   The keys of a number's forms are exactly the keys under which an equal value can be stored, each once, at most
   twelve.
  */
  lemma EqualIndexKeysExact(r: Renderer, v: Value, k: string)
    requires Faithful(r) && Legal(v) && IsNumber(v)
    ensures var keys := KeysOf(r, EqualIndexValues(v));
            && (k in keys <==> exists x :: Legal(x) && SameNumber(v, x) && Key(r, x) == k)
            && |keys| <= 12 && forall i, j :: 0 <= i < j < |keys| ==> keys[i] != keys[j]
  {
    var forms := EqualIndexValues(v);
    var keys := KeysOf(r, forms);
    if k in keys {
      var i :| 0 <= i < |keys| && keys[i] == k;
      FormsLegal(v, forms[i]);
      FormsAreTheEqualValues(v, forms[i]);
    }
    if exists x :: Legal(x) && SameNumber(v, x) && Key(r, x) == k {
      var x :| Legal(x) && SameNumber(v, x) && Key(r, x) == k;
      FormsAreTheEqualValues(v, x);
      var i :| 0 <= i < |forms| && forms[i] == x;
      assert keys[i] == k;
    }
    FormsDistinct(v);
    forall i, j | 0 <= i < j < |keys|
      ensures keys[i] != keys[j]
    {
      FormsLegal(v, forms[i]);
      FormsLegal(v, forms[j]);
      NumberKeysInjective(r, forms[i], forms[j]);
    }
  }

  /** The index keys a number equal to v can be stored under: exactly those, each once, at most twelve. */
  method EqualIndexKeys(r: Renderer, v: Value) returns (keys: seq<string>)
    requires Faithful(r) && Legal(v)
    ensures keys == KeysOf(r, EqualIndexValues(v))
    ensures IsNumber(v) ==> forall k :: k in keys <==> exists x :: Legal(x) && SameNumber(v, x) && Key(r, x) == k
    ensures IsNumber(v) ==> |keys| <= 12 && forall i, j :: 0 <= i < j < |keys| ==> keys[i] != keys[j]
    ensures v.Text? || v.Bool? || v.Temporal? ==> keys == [Key(r, v)]
    ensures v.Nil? || v.Composite? ==> keys == []
  {
    keys := ListKeys(r, EqualIndexValues(v));
    if IsNumber(v) {
      forall k
        ensures k in keys <==> exists x :: Legal(x) && SameNumber(v, x) && Key(r, x) == k
      {
        EqualIndexKeysExact(r, v, k);
      }
      EqualIndexKeysExact(r, v, "");
    }
  }

  // ---------- canonical keys ----------

  predicate SignedTag(p: string) { p == "i" || p == "i8" || p == "i16" || p == "i32" }

  predicate UnsignedTag(p: string) { p == "u" || p == "u8" || p == "u16" || p == "u32" || p == "u64" }

  /** The key that every equal integer shares: the int64 key, or the uint64 key past the int64 range. */
  function IntegerKey(n: int): string {
    Tagged(if n < TWO_TO_63 then "i64" else "u64", IntText(n))
  }

  function CanonicalIndexKey(vk: string): string {
    var k := ColonAt(vk);
    if k == |vk| then vk else
    var prefix, digits := vk[..k], vk[k + 1..];
    if SignedTag(prefix) then
      (match ParseInt(digits) case Some(i) => Tagged("i64", IntText(i)) case None => vk)
    else if UnsignedTag(prefix) then
      (match ParseUint(digits) case Some(u) => IntegerKey(u) case None => vk)
    else vk
  }

  lemma CanonicalOfTagged(prefix: string, payload: string)
    requires ':' !in prefix
    ensures var c := CanonicalIndexKey(Tagged(prefix, payload));
            && (SignedTag(prefix) && ParseInt(payload).Some? ==> c == Tagged("i64", IntText(ParseInt(payload).value)))
            && (UnsignedTag(prefix) && ParseUint(payload).Some? ==> c == IntegerKey(ParseUint(payload).value))
            && (!SignedTag(prefix) && !UnsignedTag(prefix) ==> c == Tagged(prefix, payload))
  {
    var vk := Tagged(prefix, payload);
    CutTagged(prefix, payload);
    assert vk[..|prefix|] == prefix && vk[|prefix| + 1..] == payload;
    TagsDisjoint(prefix);
  }

  lemma TagsDisjoint(p: string)
    ensures !(SignedTag(p) && UnsignedTag(p))
  {
    assert SignedTag(p) ==> p[0] == 'i';
    assert UnsignedTag(p) ==> p[0] == 'u';
  }

  function IntegerOf(v: Value): int
    requires v.Int? || v.Uint?
  {
    if v.Int? then v.i else v.u
  }

  lemma IntegerTags(v: Value)
    ensures v.Int? ==> (SignedTag(Prefix(v)) <==> !v.w.W64?) && !UnsignedTag(Prefix(v))
    ensures v.Uint? ==> UnsignedTag(Prefix(v)) && !SignedTag(Prefix(v))
  {
    TagsDisjoint(Prefix(v));
    assert v.Int? ==> Prefix(v)[0] == 'i';
  }

  lemma CanonicalOfInteger(r: Renderer, v: Value)
    requires (v.Int? && FitsSigned(v.w, v.i)) || (v.Uint? && FitsUnsigned(v.w, v.u))
    ensures CanonicalIndexKey(Key(r, v)) == IntegerKey(IntegerOf(v))
  {
    PrefixHasNoColon(v);
    IntegerTags(v);
    CanonicalOfTagged(Prefix(v), Payload(r, v));
    if v.Int? {
      ParseIntText(v.i);
    } else {
      ParseUintText(v.u);
    }
  }

  lemma IntegerKeyInjective(m: int, n: int)
    ensures IntegerKey(m) == IntegerKey(n) <==> m == n
  {
    TaggedInjective(if m < TWO_TO_63 then "i64" else "u64", IntText(m), if n < TWO_TO_63 then "i64"
        else "u64", IntText(n));
    IntTextInjective(m, n);
  }

  /** Integers of any widths share a canonical key exactly if they are equal. */
  lemma CanonicalKeyIdentifiesIntegers(r: Renderer, a: Value, b: Value)
    requires Legal(a) && Legal(b) && (a.Int? || a.Uint?) && (b.Int? || b.Uint?)
    ensures CanonicalIndexKey(Key(r, a)) == CanonicalIndexKey(Key(r, b)) <==> IntegerOf(a) == IntegerOf(b)
  {
    CanonicalOfInteger(r, a);
    CanonicalOfInteger(r, b);
    IntegerKeyInjective(IntegerOf(a), IntegerOf(b));
  }

  /** Every other key is left alone and is nobody's integer key. */
  lemma CanonicalKeyKeepsOthers(r: Renderer, v: Value, n: int)
    requires !v.Int? && !v.Uint? && !v.Nil? && !v.Composite?
    ensures CanonicalIndexKey(Key(r, v)) == Key(r, v) && Key(r, v) != IntegerKey(n)
  {
    PrefixHasNoColon(v);
    CanonicalOfTagged(Prefix(v), Payload(r, v));
    assert Prefix(v)[0] != 'i' && Prefix(v)[0] != 'u';
    TaggedInjective(Prefix(v), Payload(r, v), if n < TWO_TO_63 then "i64" else "u64", IntText(n));
  }

  lemma IntegerKeyIsCanonical(n: int)
    requires n < TWO_TO_64
    ensures CanonicalIndexKey(IntegerKey(n)) == IntegerKey(n)
  {
    if n < TWO_TO_63 {
      CanonicalOfTagged("i64", IntText(n));
    } else {
      ParseUintText(n);
      CanonicalOfTagged("u64", IntText(n));
    }
  }

  // Canonicalising either keeps the key or yields an integer key.
  lemma CanonicalIsIntegerKey(vk: string) returns (n: int)
    ensures CanonicalIndexKey(vk) == vk || (n < TWO_TO_64 && CanonicalIndexKey(vk) == IntegerKey(n))
  {
    n := 0;
    var k := ColonAt(vk);
    if k < |vk| {
      var prefix, digits := vk[..k], vk[k + 1..];
      if SignedTag(prefix) && ParseInt(digits).Some? {
        n := ParseInt(digits).value;
      } else if UnsignedTag(prefix) && ParseUint(digits).Some? {
        n := ParseUint(digits).value;
      }
    }
  }

  /** Canonicalising twice changes nothing, whatever the string. */
  lemma CanonicalKeyIdempotent(vk: string)
    ensures CanonicalIndexKey(CanonicalIndexKey(vk)) == CanonicalIndexKey(vk)
  {
    var n := CanonicalIsIntegerKey(vk);
    if n < TWO_TO_64 {
      IntegerKeyIsCanonical(n);
    }
  }
}
