/**
 The hash bytes as they are written: the first byte of every type, scalars and lengths byte by byte, and the order
 in which elements and map entries follow.
*/
module PropertyLayout {
  import opened ByteStrings
  import opened PropertyEncoding
  import opened PropertySlices
  import opened PropertyHash
  import opened PropertyEquality

  // ---------- first bytes ----------

  /** Scalars, strings and the other values without elements. */
  lemma FirstByteOfScalar(v: Value)
    requires Typed(v)
    ensures |Encode(v)| > 0
    ensures v.Nil? ==> Encode(v)[0] == 0
    ensures v.Scalar? && v.kind == KBool ==> Encode(v)[0] == 1
    ensures v.Scalar? && v.kind == KInt ==> Encode(v)[0] == 2
    ensures v.Scalar? && v.kind == KInt8 ==> Encode(v)[0] == 3
    ensures v.Scalar? && v.kind == KInt16 ==> Encode(v)[0] == 4
    ensures v.Scalar? && v.kind == KInt32 ==> Encode(v)[0] == 5
    ensures v.Scalar? && v.kind == KInt64 ==> Encode(v)[0] == 6
    ensures v.Scalar? && v.kind == KUint ==> Encode(v)[0] == 7
    ensures v.Scalar? && v.kind == KUint8 ==> Encode(v)[0] == 8
    ensures v.Scalar? && v.kind == KUint16 ==> Encode(v)[0] == 9
    ensures v.Scalar? && v.kind == KUint32 ==> Encode(v)[0] == 10
    ensures v.Scalar? && v.kind == KUint64 ==> Encode(v)[0] == 11
    ensures v.Scalar? && v.kind == KFloat32 ==> Encode(v)[0] == 12
    ensures v.Scalar? && v.kind == KFloat64 ==> Encode(v)[0] == 13
    ensures v.Text? ==> Encode(v)[0] == 14
    ensures v.Custom? ==> Encode(v)[0] == 25
    ensures v.Temporal? ==> Encode(v)[0] == 26
  {
    assert Encode(v) == [Tag(v)] + EncodeBody(v);
  }

  /** The type of a slice or map, nil or not. */
  function ContainerOf(v: Value): Container
    requires v.NilOf? || v.Strings? || v.Fixed? || v.Any? || v.MapAny? || v.MapString?
  {
    match v
    case NilOf(c) => c
    case Strings(_) => CStrings
    case Fixed(e, _) => CFixed(e)
    case Any(_) => CAny
    case MapAny(_) => CMapAny
    case MapString(_) => CMapString
  }

  /** Slices and maps. */
  lemma FirstByteOfContainer(v: Value)
    requires Typed(v) && (v.NilOf? || v.Strings? || v.Fixed? || v.Any? || v.MapAny? || v.MapString?)
    ensures |Encode(v)| > 0
    ensures ContainerOf(v) == CStrings ==> Encode(v)[0] == 15
    ensures ContainerOf(v) == CFixed(EInt) ==> Encode(v)[0] == 16
    ensures ContainerOf(v) == CFixed(EInt64) ==> Encode(v)[0] == 17
    ensures ContainerOf(v) == CFixed(EFloat64) ==> Encode(v)[0] == 18
    ensures ContainerOf(v) == CFixed(EByte) ==> Encode(v)[0] == 19
    ensures ContainerOf(v) == CFixed(EBool) ==> Encode(v)[0] == 20
    ensures ContainerOf(v) == CAny ==> Encode(v)[0] == 21
    ensures ContainerOf(v) == CMapAny ==> Encode(v)[0] == 22
    ensures ContainerOf(v) == CMapString ==> Encode(v)[0] == 23
    ensures ContainerOf(v) == CFixed(EFloat32) ==> Encode(v)[0] == 24
  {
    assert Encode(v) == [Tag(v)] + EncodeBody(v);
  }

  // ---------- numbers ----------

  lemma Powers()
    ensures Pow256(0) == 1 && Pow256(1) == 0x100 && Pow256(2) == 0x1_0000 && Pow256(4) == 0x1_0000_0000
    ensures Pow256(8) == 0x1_0000_0000_0000_0000
  {
    assert Pow256(3) == 0x100_0000 && Pow256(5) == 0x100_0000_0000 && Pow256(6) == 0x1_0000_0000_0000;
    assert Pow256(7) == 0x100_0000_0000_0000;
  }

  lemma DivideTwice(n: nat, d: nat)
    requires d > 0
    ensures n / 256 / d == n / (256 * d)
  {
    var q, r := n / 256, n % 256;
    var a, b := q / d, q % d;
    assert n == a * (256 * d) + (256 * b + r) by {
      assert n == 256 * q + r && q == d * a + b;
      assert 256 * (d * a) == a * (256 * d);
    }
    SplitPattern(256 * d, n, a, 256 * b + r);
  }

  lemma Regrouped(d: nat, c: nat, q: nat, x: nat)
    ensures d * c * q + d * x == (c * q + x) * d
  {
  }

  // Reducing modulo a multiple of 256 * d leaves the byte above d alone.
  lemma ByteOfRemainder(n: nat, d: nat, e: nat, m: nat)
    requires d > 0 && m > 0 && m == d * (256 * e)
    ensures n % m / d % 256 == n / d % 256
  {
    var q, w := n / m, n % m;
    var x, y := w / d, w % d;
    var c := 256 * e;
    Regrouped(d, c, q, x);
    SplitPattern(d, n, c * q + x, y);
    assert c * q == 256 * (e * q);
    SameByte(x, e * q);
  }

  lemma SameByte(x: nat, k: nat)
    ensures (256 * k + x) % 256 == x % 256
  {
  }

  /** Byte i of a k-byte number, counted from the most significant one. */
  lemma {:induction false} BigEndian(n: nat, k: nat, i: nat)
    requires i < k
    ensures |BE(n, k)| == k && BE(n, k)[i] == n / Pow256(k - 1 - i) % 256
    decreases k
  {
    if i < k - 1 {
      BigEndian(n / 256, k - 1, i);
      DivideTwice(n, Pow256(k - 2 - i));
    }
  }

  /** A number as unsigned: negative ones in two's complement. */
  function Wrapped(n: int, modulus: int): int { if n < 0 then n + modulus else n }

  lemma ScalarByte(k: Kind, n: int, i: nat)
    requires InRange(k, n) && i < Size(k)
    ensures |EncodeScalar(k, n)| == Size(k)
    ensures EncodeScalar(k, n)[i] == Wrapped(n, Pow256(Size(k))) / Pow256(Size(k) - 1 - i) % 256
  {
    BigEndian(Wrapped(n, Pow256(Size(k))), Size(k), i);
  }

  /** One byte: bools, int8 and uint8. */
  lemma OneByteScalar(k: Kind, n: int)
    requires (k == KBool || k == KInt8 || k == KUint8) && InRange(k, n)
    ensures EncodeBody(Scalar(k, n)) == [if n < 0 then n + 0x100 else n]
    ensures k == KBool ==> 0 <= n <= 1
    ensures k == KInt8 ==> -0x80 <= n < 0x80
    ensures k == KUint8 ==> 0 <= n < 0x100
  {
    Powers();
    ScalarByte(k, n, 0);
  }

  /** Two bytes. */
  lemma TwoByteScalar(k: Kind, n: int)
    requires (k == KInt16 || k == KUint16) && InRange(k, n)
    ensures var w := if n < 0 then n + 0x1_0000 else n; EncodeBody(Scalar(k, n)) == [w / 0x100, w % 0x100]
    ensures if k == KInt16 then -0x8000 <= n < 0x8000 else 0 <= n < 0x1_0000
  {
    Powers();
    ScalarByte(k, n, 0);
    ScalarByte(k, n, 1);
  }

  /** Four bytes; a float by its bits. */
  lemma FourByteScalar(k: Kind, n: int, i: nat)
    requires (k == KInt32 || k == KUint32 || k == KFloat32) && InRange(k, n) && i < 4
    ensures var w := if n < 0 then n + 0x1_0000_0000 else n;
            |EncodeBody(Scalar(k, n))| == 4 && EncodeBody(Scalar(k, n))[i] == w / Pow256(3 - i) % 0x100
    ensures if k == KInt32 then -0x8000_0000 <= n < 0x8000_0000 else 0 <= n < 0x1_0000_0000
  {
    Powers();
    ScalarByte(k, n, i);
  }

  /** Eight bytes; int and uint are written like their 64-bit kin. */
  lemma EightByteScalar(k: Kind, n: int, i: nat)
    requires (k == KInt || k == KInt64 || k == KUint || k == KUint64 || k == KFloat64) && InRange(k, n) && i < 8
    ensures var w := if n < 0 then n + 0x1_0000_0000_0000_0000 else n;
            |EncodeBody(Scalar(k, n))| == 8 && EncodeBody(Scalar(k, n))[i] == w / Pow256(7 - i) % 0x100
    ensures if k == KInt || k == KInt64 then -0x8000_0000_0000_0000 <= n < 0x8000_0000_0000_0000
            else 0 <= n < 0x1_0000_0000_0000_0000
  {
    Powers();
    ScalarByte(k, n, i);
  }

  /** A length: four bytes, of which a longer one keeps the low ones. */
  lemma LengthBytes(n: nat)
    ensures Length(n) == [n / 0x100_0000 % 0x100, n / 0x1_0000 % 0x100, n / 0x100 % 0x100, n % 0x100]
  {
    var w := n % 0x1_0000_0000;
    Powers();
    assert Pow256(3) == 0x100_0000;
    BigEndian(w, 4, 0);
    BigEndian(w, 4, 1);
    BigEndian(w, 4, 2);
    BigEndian(w, 4, 3);
    ByteOfRemainder(n, 0x100_0000, 1, 0x1_0000_0000);
    ByteOfRemainder(n, 0x1_0000, 0x100, 0x1_0000_0000);
    ByteOfRemainder(n, 0x100, 0x1_0000, 0x1_0000_0000);
    ByteOfRemainder(n, 1, 0x100_0000, 0x1_0000_0000);
  }

  // ---------- whole values ----------

  /** Values without elements. */
  lemma FlatLayout(v: Value)
    requires Typed(v)
    ensures v.Nil? ==> Encode(v) == [0]
    ensures v.Text? ==> Encode(v) == [14] + (Length(|v.s|) + v.s)
    ensures v.Temporal? ==> Encode(v) == [26] + ([v.tkind] + (Length(|v.s|) + v.s))
    ensures v.NilOf? ==> Encode(v)[1..] == [255, 255, 255, 255]
    ensures v.Custom? ==>
      Encode(v) == [25] + (Length(|v.name|) + v.name + [if v.pointer then 1 else 0] + (Length(|v.hash|) + v.hash))
  {
    if v.NilOf? {
      LengthBytes(NIL_LENGTH);
    }
  }

  /** One list of bytes after the other. */
  function Flat(pieces: seq<Bytes>): Bytes {
    if pieces == [] then [] else pieces[0] + Flat(pieces[1..])
  }

  /** The pieces follow one another without anything in between. */
  lemma {:induction false} FlatSplits(a: seq<Bytes>, piece: Bytes, b: seq<Bytes>)
    ensures Flat(a + [piece] + b) == Flat(a) + piece + Flat(b)
    decreases |a|
  {
    var all := a + [piece] + b;
    if a == [] {
      assert all[0] == piece && all[1..] == b;
    } else {
      FlatSplits(a[1..], piece, b);
      assert all[0] == a[0] && all[1..] == a[1..] + [piece] + b;
    }
  }

  lemma {:induction false} TextsAreFlat(ss: seq<Bytes>)
    ensures EncodeTexts(ss) == Flat(seq(|ss|, i requires 0 <= i < |ss| => Length(|ss[i]|) + ss[i]))
    decreases |ss|
  {
    var pieces := seq(|ss|, i requires 0 <= i < |ss| => Length(|ss[i]|) + ss[i]);
    if ss != [] {
      TextsAreFlat(ss[1..]);
      assert pieces[1..] == seq(|ss[1..]|, i requires 0 <= i < |ss[1..]| => Length(|ss[1..][i]|) + ss[1..][i]);
    }
  }

  lemma {:induction false} ScalarsAreFlat(k: Kind, ns: seq<int>)
    requires AllInRange(k, ns)
    ensures EncodeScalars(k, ns) == Flat(seq(|ns|, i requires 0 <= i < |ns| => EncodeScalar(k, ns[i])))
    decreases |ns|
  {
    var pieces := seq(|ns|, i requires 0 <= i < |ns| => EncodeScalar(k, ns[i]));
    if ns != [] {
      ScalarsAreFlat(k, ns[1..]);
      assert pieces[1..] == seq(|ns[1..]|, i requires 0 <= i < |ns[1..]| => EncodeScalar(k, ns[1..][i]));
    }
  }

  /** Every element of the list is of a value type. */
  ghost predicate AllTyped(vs: seq<Value>) { forall i :: 0 <= i < |vs| ==> Typed(vs[i]) }

  lemma {:induction false} ValuesAreFlat(vs: seq<Value>)
    requires AllTyped(vs)
    ensures EncodeAll(vs) == Flat(seq(|vs|, i requires 0 <= i < |vs| => Encode(vs[i])))
    decreases |vs|
  {
    var pieces := seq(|vs|, i requires 0 <= i < |vs| => Encode(vs[i]));
    if vs != [] {
      ValuesAreFlat(vs[1..]);
      assert pieces[1..] == seq(|vs[1..]|, i requires 0 <= i < |vs[1..]| => Encode(vs[1..][i]));
    }
  }

  /** Slices: the count, then the elements in order. */
  lemma SliceLayout(v: Value)
    requires Typed(v)
    ensures v.Strings? ==>
      Encode(v) ==
      [15] + (Length(|v.ss|) + Flat(seq(|v.ss|, i requires 0 <= i < |v.ss| => Length(|v.ss[i]|) + v.ss[i])))
    ensures v.Fixed? ==>
      Encode(v)[1..] ==
      Length(|v.ns|) + Flat(seq(|v.ns|, i requires 0 <= i < |v.ns| => EncodeScalar(KindOf(v.e), v.ns[i])))
    ensures v.Any? ==>
      Encode(v) == [21] + (Length(|v.vs|) + Flat(seq(|v.vs|, i requires 0 <= i < |v.vs| => Encode(v.vs[i]))))
  {
    if v.Strings? {
      TextsAreFlat(v.ss);
    } else if v.Fixed? {
      ScalarsAreFlat(KindOf(v.e), v.ns);
    } else if v.Any? {
      ValuesAreFlat(v.vs);
    }
  }

  /** The elements of the typed slices are written like scalars of these kinds. */
  lemma ElementKinds()
    ensures KindOf(EInt) == KInt && KindOf(EInt64) == KInt64 && KindOf(EFloat32) == KFloat32
    ensures KindOf(EFloat64) == KFloat64 && KindOf(EByte) == KUint8 && KindOf(EBool) == KBool
  {
  }

  // ---------- maps ----------

  lemma SameHead(a: Bytes, b: Bytes, n: nat)
    requires n <= |a| && n < |b| && a[..n] == b[..n]
    ensures n > 0 ==> a[0] == b[0]
  {
    assert n > 0 ==> a[..n][0] == a[0] && b[..n][0] == b[0];
  }

  /** The order of keys: a proper prefix comes first, otherwise the smaller byte at the first difference decides. */
  lemma {:induction false} BelowMeans(a: Bytes, b: Bytes)
    ensures Below(a, b) <==>
            exists n: nat :: n <= |a| && n < |b| && a[..n] == b[..n] && (n == |a| || a[n] < b[n])
    decreases |a|
  {
    if a != [] && b != [] && a[0] == b[0] {
      BelowMeans(a[1..], b[1..]);
      if Below(a, b) {
        var c, d := a[1..], b[1..];
        var n: nat :| n <= |c| && n < |d| && c[..n] == d[..n] && (n == |c| || c[n] < d[n]);
        assert a[..n + 1] == [a[0]] + a[1..][..n] && b[..n + 1] == [b[0]] + b[1..][..n];
      }
      if n: nat :| n <= |a| && n < |b| && a[..n] == b[..n] && (n == |a| || a[n] < b[n]) {
        assert n > 0;
        assert a[1..][..n - 1] == a[..n][1..] && b[1..][..n - 1] == b[..n][1..];
      }
    } else if Below(a, b) {
      assert a[..0] == b[..0];
    } else if n: nat :| n <= |a| && n < |b| && a[..n] == b[..n] && (n == |a| || a[n] < b[n]) {
      SameHead(a, b, n);
    }
  }

  /** The keys of a map as they are written. */
  ghost predicate KeyOrder(ks: seq<Bytes>, keys: set<Bytes>) {
    && (forall k :: k in ks <==> k in keys)
    && (forall i, j :: 0 <= i < j < |ks| ==> Below(ks[i], ks[j]))
  }

  lemma {:induction false} PairsAreFlat(v: Value, ks: seq<Bytes>)
    requires v.MapAny? && Typed(v) && forall i :: 0 <= i < |ks| ==> ks[i] in v.m
    ensures EncodePairs(v, ks) ==
            Flat(seq(|ks|, i requires 0 <= i < |ks| => Length(|ks[i]|) + ks[i] + Encode(v.m[ks[i]])))
    decreases |ks|
  {
    var pieces := seq(|ks|, i requires 0 <= i < |ks| => Length(|ks[i]|) + ks[i] + Encode(v.m[ks[i]]));
    if ks != [] {
      var rest := ks[1..];
      PairsAreFlat(v, rest);
      assert pieces[1..] ==
             seq(|rest|, i requires 0 <= i < |rest| => Length(|rest[i]|) + rest[i] + Encode(v.m[rest[i]]));
    }
  }

  /** A map: the count, then keys and values in the order of the keys. */
  lemma MapLayout(v: Value) returns (ks: seq<Bytes>)
    requires Typed(v) && v.MapAny?
    ensures KeyOrder(ks, v.m.Keys) && forall i :: 0 <= i < |ks| ==> ks[i] in v.m
    ensures Encode(v) ==
            [22] + (Length(|v.m|) +
            Flat(seq(|ks|, i requires 0 <= i < |ks| => Length(|ks[i]|) + ks[i] + Encode(v.m[ks[i]]))))
  {
    ks := Sorted(v.m.Keys);
    PairsAreFlat(v, ks);
  }

  lemma {:induction false} TextPairsAreFlat(m: map<Bytes, Bytes>, ks: seq<Bytes>)
    requires forall i :: 0 <= i < |ks| ==> ks[i] in m
    ensures EncodeTextPairs(m, ks) ==
            Flat(seq(|ks|, i requires 0 <= i < |ks| => Length(|ks[i]|) + ks[i] + (Length(|m[ks[i]]|) + m[ks[i]])))
    decreases |ks|
  {
    var pieces := seq(|ks|, i requires 0 <= i < |ks| => Length(|ks[i]|) + ks[i] + (Length(|m[ks[i]]|) + m[ks[i]]));
    if ks != [] {
      var rest := ks[1..];
      TextPairsAreFlat(m, rest);
      assert pieces[1..] == seq(|rest|, i requires 0 <= i < |rest| =>
        Length(|rest[i]|) + rest[i] + (Length(|m[rest[i]]|) + m[rest[i]]));
    }
  }

  /** A map of strings. */
  lemma TextMapLayout(v: Value) returns (ks: seq<Bytes>)
    requires Typed(v) && v.MapString?
    ensures KeyOrder(ks, v.sm.Keys) && forall i :: 0 <= i < |ks| ==> ks[i] in v.sm
    ensures Encode(v) == [23] + (Length(|v.sm|) +
            Flat(seq(|ks|, i requires 0 <= i < |ks| =>
              Length(|ks[i]|) + ks[i] + (Length(|v.sm[ks[i]]|) + v.sm[ks[i]]))))
  {
    ks := Sorted(v.sm.Keys);
    TextPairsAreFlat(v.sm, ks);
  }

  /** A property slice: keys and values one after the other, without a count. */
  lemma {:induction false} EntriesLayout(ps: PropertySlice)
    requires TypedEntries(ps)
    ensures EncodeEntries(ps) ==
            Flat(seq(|ps|, i requires 0 <= i < |ps| => Length(|ps[i].key|) + ps[i].key + Encode(ps[i].value)))
    decreases |ps|
  {
    var pieces := seq(|ps|, i requires 0 <= i < |ps| => Length(|ps[i].key|) + ps[i].key + Encode(ps[i].value));
    if ps != [] {
      var rest := ps[1..];
      EntriesLayout(rest);
      assert pieces[1..] == seq(|rest|, i requires 0 <= i < |rest| =>
        Length(|rest[i].key|) + rest[i].key + Encode(rest[i].value));
    }
  }

  // ---------- the appended bytes ----------

  /** What is appended for an int: the byte 2, then eight bytes in two's complement, most significant first. */
  method AppendedInt(buf: Bytes, n: int) returns (r: Outcome)
    requires -0x8000_0000_0000_0000 <= n < 0x8000_0000_0000_0000
    ensures r.Appended? && |r.bytes| == |buf| + 9 && r.bytes[..|buf|] == buf && r.bytes[|buf|] == 2
    ensures var body := r.bytes[|buf| + 1..];
            forall i :: 0 <= i < 8 ==>
              body[i] == (if n < 0 then n + 0x1_0000_0000_0000_0000 else n) / Pow256(7 - i) % 0x100
  {
    Powers();
    var v := Scalar(KInt, n);
    r := AppendValue(buf, v, 0);
    FirstByteOfScalar(v);
    forall i | 0 <= i < 8
      ensures |EncodeBody(v)| == 8
      ensures EncodeBody(v)[i] == (if n < 0 then n + 0x1_0000_0000_0000_0000 else n) / Pow256(7 - i) % 0x100
    {
      EightByteScalar(KInt, n, i);
    }
    EightByteScalar(KInt, n, 0);
    assert r.bytes[|buf| + 1..] == EncodeBody(v);
  }

  /** What is appended for a string: the byte 14, four length bytes, then its own bytes. */
  method AppendedText(buf: Bytes, s: Bytes) returns (r: Outcome)
    ensures var n := |s|;
            r == Appended(buf + ([14, n / 0x100_0000 % 0x100, n / 0x1_0000 % 0x100, n / 0x100 % 0x100, n % 0x100] + s))
  {
    r := AppendValue(buf, Text(s), 0);
    FlatLayout(Text(s));
    LengthBytes(|s|);
  }
}
