/**
 Index keys as they are written, and that no two values share one: strings, temporal values, bools and numbers of
 every width.
*/
module KeyForms {
  import opened Options
  import opened Dyadic
  import opened Numbers
  import opened IndexKeys
  import opened ElementKeys

  // ---------- decimal text ----------

  /** The ten digits. */
  lemma DigitTexts()
    ensures IntText(0) == "0" && IntText(1) == "1" && IntText(2) == "2" && IntText(3) == "3" && IntText(4) == "4"
    ensures IntText(5) == "5" && IntText(6) == "6" && IntText(7) == "7" && IntText(8) == "8" && IntText(9) == "9"
  {
  }

  /** Longer numbers digit by digit, most significant first, and negative ones after a sign. */
  lemma DecimalText(n: int, d: int)
    requires n > 0 && 0 <= d < 10
    ensures IntText(10 * n + d) == IntText(n) + IntText(d)
    ensures IntText(-n) == "-" + IntText(n)
  {
    assert (10 * n + d) / 10 == n && (10 * n + d) % 10 == d;
  }

  // ---------- written forms ----------

  lemma Joined(prefix: string, payload: string)
    ensures Tagged(prefix, payload) == prefix + (":" + payload)
  {
  }

  lemma Prefixed(prefix: string, colon: string, payload: string)
    requires colon == prefix + ":"
    ensures Tagged(prefix, payload) == colon + payload
  {
  }

  /** Strings and bools; nil and composite values have no key. */
  lemma TextKeys(r: Renderer, s: string)
    ensures Key(r, Text(s)) == "s:" + s
    ensures Key(r, Bool(true)) == "b:true" && Key(r, Bool(false)) == "b:false"
    ensures Key(r, Nil) == "" && Key(r, Composite) == ""
  {
    Joined("s", s);
    Joined("b", "true");
    Joined("b", "false");
  }

  /** Temporal values: the number of their kind, and their text. */
  lemma TemporalKeys(r: Renderer, kind: nat, s: string)
    ensures Key(r, Temporal(kind, s)) == "tv:" + (IntText(kind) + (":" + s))
  {
    Joined(Digits(kind), s);
    Joined("tv", Tagged(Digits(kind), s));
    assert "tv" + (":" + Tagged(Digits(kind), s)) == "tv:" + Tagged(Digits(kind), s);
  }

  /** Integers of every width. */
  lemma IntegerKeys(r: Renderer, n: int)
    ensures Key(r, Int(Native, n)) == "i:" + IntText(n) && Key(r, Uint(Native, n)) == "u:" + IntText(n)
    ensures Key(r, Int(W8, n)) == "i8:" + IntText(n) && Key(r, Uint(W8, n)) == "u8:" + IntText(n)
    ensures Key(r, Int(W16, n)) == "i16:" + IntText(n) && Key(r, Uint(W16, n)) == "u16:" + IntText(n)
    ensures Key(r, Int(W32, n)) == "i32:" + IntText(n) && Key(r, Uint(W32, n)) == "u32:" + IntText(n)
    ensures Key(r, Int(W64, n)) == "i64:" + IntText(n) && Key(r, Uint(W64, n)) == "u64:" + IntText(n)
  {
    var t := IntText(n);
    Prefixed("i", "i:", t);
    Prefixed("i8", "i8:", t);
    Prefixed("i16", "i16:", t);
    Prefixed("i32", "i32:", t);
    Prefixed("i64", "i64:", t);
    Prefixed("u", "u:", t);
    Prefixed("u8", "u8:", t);
    Prefixed("u16", "u16:", t);
    Prefixed("u32", "u32:", t);
    Prefixed("u64", "u64:", t);
  }

  /** Floats of both widths: zero and NaN by name, others as rendered. */
  lemma FloatKeys(r: Renderer, f: Float)
    ensures Key(r, Float32(Fin(0))) == "f32:0" && Key(r, Float32(NaN)) == "f32:nan"
    ensures Key(r, Float64(Fin(0))) == "f64:0" && Key(r, Float64(NaN)) == "f64:nan"
    ensures f != Fin(0) && f != NaN ==>
      Key(r, Float32(f)) == "f32:" + r.f32(f) && Key(r, Float64(f)) == "f64:" + r.f64(f)
  {
  }

  lemma IntegerKeyWritten(n: int)
    ensures IntegerKey(n) == (if n < 0x8000_0000_0000_0000 then "i64:" else "u64:") + IntText(n)
  {
    Prefixed("i64", "i64:", IntText(n));
    Prefixed("u64", "u64:", IntText(n));
  }

  /** The canonical key of an integer of any width. */
  lemma CanonicalIntegerKeys(r: Renderer, v: Value)
    requires Legal(v) && (v.Int? || v.Uint?)
    ensures v.Int? ==> CanonicalIndexKey(Key(r, v)) == "i64:" + IntText(v.i)
    ensures v.Uint? && v.u < 0x8000_0000_0000_0000 ==> CanonicalIndexKey(Key(r, v)) == "i64:" + IntText(v.u)
    ensures v.Uint? && v.u >= 0x8000_0000_0000_0000 ==> CanonicalIndexKey(Key(r, v)) == "u64:" + IntText(v.u)
  {
    CanonicalOfInteger(r, v);
    IntegerKeyWritten(IntegerOf(v));
    if v.Int? {
      assert v.i < 0x8000_0000_0000_0000;
    }
  }

  // ---------- keys identify values ----------

  predicate Keyed(v: Value) { !v.Nil? && !v.Composite? }

  lemma TemporalPayloads(r: Renderer, a: Value, b: Value)
    requires a.Temporal? && b.Temporal? && Payload(r, a) == Payload(r, b)
    ensures a == b
  {
    DigitsHaveNoColon(a.kind);
    DigitsHaveNoColon(b.kind);
    TaggedInjective(Digits(a.kind), a.text, Digits(b.kind), b.text);
    DigitsRoundTrip(a.kind);
    DigitsRoundTrip(b.kind);
  }

  lemma DigitsHaveNoColon(n: nat)
    ensures ':' !in Digits(n)
  {
    DigitsRoundTrip(n);
  }

  /** Two values that have keys have the same key if and only if they are the same value of the same type. */
  lemma KeysInjective(r: Renderer, a: Value, b: Value)
    requires Faithful(r) && Legal(a) && Legal(b) && Keyed(a) && Keyed(b)
    ensures Key(r, a) == Key(r, b) <==> a == b
  {
    if IsNumber(a) && IsNumber(b) {
      NumberKeysInjective(r, a, b);
    } else {
      KeyParts(r, a, b);
      if IsNumber(b) {
        OtherPrefix(a, b);
      } else if IsNumber(a) {
        OtherPrefix(b, a);
      } else {
        assert |Prefix(a)| > 0 && |Prefix(b)| > 0;
        assert Prefix(a) == Prefix(b) ==> Prefix(a)[0] == Prefix(b)[0];
        if a.Temporal? && b.Temporal? && Payload(r, a) == Payload(r, b) {
          TemporalPayloads(r, a, b);
        }
        if a.Bool? && b.Bool? && a.b != b.b {
          assert Payload(r, a)[0] != Payload(r, b)[0];
        }
      }
    }
  }

  /** No key is empty. */
  lemma KeysNotEmpty(r: Renderer, v: Value)
    ensures Key(r, v) == "" <==> !Keyed(v)
  {
  }

  /** A value that is no number is looked up under its own key only, and one without a key under none. */
  lemma OtherForms(r: Renderer, v: Value)
    requires !IsNumber(v)
    ensures KeysOf(r, EqualIndexValues(v)) == if Keyed(v) then [Key(r, v)] else []
  {
  }

  // ---------- lists ----------

  /** A scalar carries its own key; a list carries keys only in an elements index, those of its elements. */
  lemma CarriedKeys(r: Renderer, v: Value, values: seq<Value>, elements: bool, target: string)
    ensures Carries(r, Single(v), elements, target) <==> target != "" && Key(r, v) == target
    ensures !Carries(r, List(values), false, target)
    ensures Carries(r, List(values), true, target) <==>
            target != "" && exists i :: 0 <= i < |values| && Key(r, values[i]) == target
  {
  }

  /** A list carries the key of a value exactly if it holds that value, of whatever type. */
  lemma ListCarriesValue(r: Renderer, values: seq<Value>, v: Value)
    requires Faithful(r) && Legal(v) && Keyed(v) && forall i :: 0 <= i < |values| ==> Legal(values[i])
    ensures Carries(r, List(values), true, Key(r, v)) <==> v in values
  {
    KeysNotEmpty(r, v);
    forall i | 0 <= i < |values|
      ensures Key(r, values[i]) == Key(r, v) <==> values[i] == v
    {
      if Keyed(values[i]) {
        KeysInjective(r, values[i], v);
      } else {
        KeysNotEmpty(r, values[i]);
      }
    }
  }
}
