/**
 The integrity-hash byte layout of property values: a type tag followed by fixed-size big-endian
 scalars, length-prefixed byte strings, or counted elements, maps in ascending key order. A decoder
 recovers every value from the front of any input, so the layout is self-delimiting and injective.
*/
module PropertyEncoding {
  import opened Options
  import opened ByteStrings

  // ---------- values ----------

  /** Scalar types, in the order of their tags 1 to 13. */
  datatype Kind =
    | KBool | KInt | KInt8 | KInt16 | KInt32 | KInt64
    | KUint | KUint8 | KUint16 | KUint32 | KUint64 | KFloat32 | KFloat64

  /** Element types of the typed slices. */
  datatype Elem = EInt | EInt64 | EFloat32 | EFloat64 | EByte | EBool

  datatype Container = CStrings | CFixed(e: Elem) | CAny | CMapAny | CMapString

  /**
   A property value. Scalars are integers in the range of their kind; floats are their IEEE 754 bit
   patterns. A nil slice or map is NilOf its type and differs from an empty one. A registered custom
   value is what it contributes: type name, pointer-ness and its own hash bytes.
  */
  datatype Value =
    | Nil
    | Scalar(kind: Kind, n: int)
    | Text(s: Bytes)
    | Temporal(tkind: Byte, s: Bytes)
    | NilOf(c: Container)
    | Strings(ss: seq<Bytes>)
    | Fixed(e: Elem, ns: seq<int>)
    | Any(vs: seq<Value>)
    | MapAny(m: map<Bytes, Value>)
    | MapString(sm: map<Bytes, Bytes>)
    | Custom(name: Bytes, pointer: bool, hash: Bytes)

  const MAX_DEPTH: nat := 32

  /** Some value inside v sits more than MAX_DEPTH levels deep when v is at this depth. */
  ghost predicate TooDeep(v: Value, depth: nat)
    decreases v
  {
    || depth > MAX_DEPTH
    || (v.Any? && exists i :: 0 <= i < |v.vs| && TooDeep(v.vs[i], depth + 1))
    || (v.MapAny? && exists k :: k in v.m && TooDeep(v.m[k], depth + 1))
  }

  function Size(k: Kind): nat {
    match k
    case KBool => 1 case KInt8 => 1 case KUint8 => 1
    case KInt16 => 2 case KUint16 => 2
    case KInt32 => 4 case KUint32 => 4 case KFloat32 => 4
    case _ => 8
  }

  predicate IsSigned(k: Kind) { k.KInt? || k.KInt8? || k.KInt16? || k.KInt32? || k.KInt64? }

  predicate InRange(k: Kind, n: int) {
    var p: int := Pow256(Size(k));
    if k.KBool? then 0 <= n <= 1
    else if IsSigned(k) then -p <= 2 * n < p
    else 0 <= n < p
  }

  function KindOf(e: Elem): Kind {
    match e
    case EInt => KInt case EInt64 => KInt64 case EFloat32 => KFloat32
    case EFloat64 => KFloat64 case EByte => KUint8 case EBool => KBool
  }

  // ---------- tags ----------

  function KindTag(k: Kind): Byte {
    match k
    case KBool => 1 case KInt => 2 case KInt8 => 3 case KInt16 => 4 case KInt32 => 5 case KInt64 => 6
    case KUint => 7 case KUint8 => 8 case KUint16 => 9 case KUint32 => 10 case KUint64 => 11
    case KFloat32 => 12 case KFloat64 => 13
  }

  function ContainerTag(c: Container): Byte {
    match c
    case CStrings => 15
    case CFixed(e) =>
      (match e
       case EInt => 16 case EInt64 => 17 case EFloat64 => 18 case EByte => 19 case EBool => 20 case EFloat32 => 24)
    case CAny => 21
    case CMapAny => 22
    case CMapString => 23
  }

  function Tag(v: Value): Byte {
    match v
    case Nil => 0
    case Scalar(k, _) => KindTag(k)
    case Text(_) => 14
    case NilOf(c) => ContainerTag(c)
    case Strings(_) => ContainerTag(CStrings)
    case Fixed(e, _) => ContainerTag(CFixed(e))
    case Any(_) => ContainerTag(CAny)
    case MapAny(_) => ContainerTag(CMapAny)
    case MapString(_) => ContainerTag(CMapString)
    case Custom(_, _, _) => 25
    case Temporal(_, _) => 26
  }

  // ---------- encoding ----------

  const TWO_TO_32: int := 0x1_0000_0000

  /** The length written for a nil container. */
  const NIL_LENGTH: int := 0xFFFF_FFFF

  /** The length prefix keeps only the low 32 bits. */
  function Length(n: nat): Bytes { BE(n % TWO_TO_32, 4) }

  function EncodeText(s: Bytes): Bytes { Length(|s|) + s }

  /** Two's complement in the kind's size. */
  function EncodeScalar(k: Kind, n: int): Bytes
    requires InRange(k, n)
  {
    BE(if n < 0 then n + Pow256(Size(k)) else n, Size(k))
  }

  function EncodeTexts(ss: seq<Bytes>): Bytes {
    if ss == [] then [] else EncodeText(ss[0]) + EncodeTexts(ss[1..])
  }

  predicate AllInRange(k: Kind, ns: seq<int>) { forall i :: 0 <= i < |ns| ==> InRange(k, ns[i]) }

  function EncodeScalars(k: Kind, ns: seq<int>): Bytes
    requires AllInRange(k, ns)
  {
    if ns == [] then [] else EncodeScalar(k, ns[0]) + EncodeScalars(k, ns[1..])
  }

  function EncodeTextPairs(m: map<Bytes, Bytes>, ks: seq<Bytes>): Bytes
    requires forall k :: k in ks ==> k in m
  {
    if ks == [] then [] else EncodeText(ks[0]) + EncodeText(m[ks[0]]) + EncodeTextPairs(m, ks[1..])
  }

  /** Every scalar lies in its kind's range, at any depth; the type system of the program grants it. */
  ghost predicate Typed(v: Value) {
    match v
    case Scalar(k, n) => InRange(k, n)
    case Fixed(e, ns) => AllInRange(KindOf(e), ns)
    case Any(vs) => forall i :: 0 <= i < |vs| ==> Typed(vs[i])
    case MapAny(m) => forall k :: k in m ==> Typed(m[k])
    case _ => true
  }

  ghost function Encode(v: Value): Bytes
    requires Typed(v)
    decreases v, 2
  {
    [Tag(v)] + EncodeBody(v)
  }

  /** Everything after the tag. */
  ghost function EncodeBody(v: Value): Bytes
    requires Typed(v)
    decreases v, 1
  {
    match v
    case Nil => []
    case Scalar(k, n) => EncodeScalar(k, n)
    case Text(s) => EncodeText(s)
    case Temporal(k, s) => [k] + EncodeText(s)
    case NilOf(_) => Length(NIL_LENGTH)
    case Strings(ss) => Length(|ss|) + EncodeTexts(ss)
    case Fixed(e, ns) => Length(|ns|) + EncodeScalars(KindOf(e), ns)
    case Any(vs) => Length(|vs|) + EncodeAll(vs)
    case MapAny(m) => Length(|m|) + EncodePairs(v, Sorted(m.Keys))
    case MapString(sm) => Length(|sm|) + EncodeTextPairs(sm, Sorted(sm.Keys))
    case Custom(name, pointer, hash) => EncodeText(name) + [if pointer then 1 else 0] + EncodeText(hash)
  }

  ghost function EncodeAll(vs: seq<Value>): Bytes
    requires forall i :: 0 <= i < |vs| ==> Typed(vs[i])
    decreases vs
  {
    if vs == [] then [] else Encode(vs[0]) + EncodeAll(vs[1..])
  }

  ghost function EncodePairs(v: Value, ks: seq<Bytes>): Bytes
    requires v.MapAny? && Typed(v) && forall k :: k in ks ==> k in v.m
    decreases v, 0, |ks|
  {
    if ks == [] then [] else EncodeText(ks[0]) + Encode(v.m[ks[0]]) + EncodePairs(v, ks[1..])
  }

  // ---------- decoding ----------

  /** A decoded item and the input that follows it. */
  datatype Parsed<+T> = Parsed(item: T, rest: Bytes)

  function Take(bs: Bytes, n: nat): (r: Option<Parsed<Bytes>>)
    ensures r.Some? ==> |r.value.rest| == |bs| - n
  {
    if |bs| < n then None else Some(Parsed(bs[..n], bs[n..]))
  }

  function DecodeLength(bs: Bytes): (r: Option<Parsed<nat>>)
    ensures r.Some? ==> |r.value.rest| < |bs|
  {
    match Take(bs, 4)
    case None => None
    case Some(p) => Some(Parsed(UnBE(p.item), p.rest))
  }

  function DecodeText(bs: Bytes): (r: Option<Parsed<Bytes>>)
    ensures r.Some? ==> |r.value.rest| < |bs|
  {
    match DecodeLength(bs)
    case None => None
    case Some(p) => Take(p.rest, p.item)
  }

  function DecodeScalar(k: Kind, bs: Bytes): (r: Option<Parsed<int>>)
    ensures r.Some? ==> |r.value.rest| < |bs|
  {
    match Take(bs, Size(k))
    case None => None
    case Some(p) =>
      var n := UnBE(p.item);
      Some(Parsed(if IsSigned(k) && 2 * n >= Pow256(Size(k)) then n - Pow256(Size(k)) else n, p.rest))
  }

  function DecodeTexts(n: nat, bs: Bytes): (r: Option<Parsed<seq<Bytes>>>)
    ensures r.Some? ==> |r.value.rest| <= |bs|
    decreases n
  {
    if n == 0 then Some(Parsed([], bs)) else
    match DecodeText(bs)
    case None => None
    case Some(p) =>
      match DecodeTexts(n - 1, p.rest)
      case None => None
      case Some(q) => Some(Parsed([p.item] + q.item, q.rest))
  }

  function DecodeScalars(k: Kind, n: nat, bs: Bytes): (r: Option<Parsed<seq<int>>>)
    ensures r.Some? ==> |r.value.rest| <= |bs|
    decreases n
  {
    if n == 0 then Some(Parsed([], bs)) else
    match DecodeScalar(k, bs)
    case None => None
    case Some(p) =>
      match DecodeScalars(k, n - 1, p.rest)
      case None => None
      case Some(q) => Some(Parsed([p.item] + q.item, q.rest))
  }

  function DecodeTextPairs(n: nat, bs: Bytes): (r: Option<Parsed<map<Bytes, Bytes>>>)
    ensures r.Some? ==> |r.value.rest| <= |bs|
    decreases n
  {
    if n == 0 then Some(Parsed(map[], bs)) else
    match DecodeText(bs)
    case None => None
    case Some(key) =>
      match DecodeText(key.rest)
      case None => None
      case Some(p) =>
        match DecodeTextPairs(n - 1, p.rest)
        case None => None
        case Some(q) => Some(Parsed(q.item[key.item := p.item], q.rest))
  }

  function KindFor(tag: Byte): Option<Kind> {
    if tag == 1 then Some(KBool) else if tag == 2 then Some(KInt) else if tag == 3 then Some(KInt8)
    else if tag == 4 then Some(KInt16) else if tag == 5 then Some(KInt32) else if tag == 6 then Some(KInt64)
    else if tag == 7 then Some(KUint) else if tag == 8 then Some(KUint8) else if tag == 9 then Some(KUint16)
    else if tag == 10 then Some(KUint32) else if tag == 11 then Some(KUint64) else if tag == 12 then Some(KFloat32)
    else if tag == 13 then Some(KFloat64) else None
  }

  function ContainerFor(tag: Byte): Option<Container> {
    if tag == 15 then Some(CStrings) else if tag == 16 then Some(CFixed(EInt))
        else if tag == 17 then Some(CFixed(EInt64))
    else if tag == 18 then Some(CFixed(EFloat64)) else if tag == 19 then Some(CFixed(EByte))
        else if tag == 20 then Some(CFixed(EBool))
    else if tag == 21 then Some(CAny) else if tag == 22 then Some(CMapAny) else if tag == 23 then Some(CMapString)
    else if tag == 24 then Some(CFixed(EFloat32)) else None
  }

  lemma TagsRoundTrip(k: Kind, c: Container)
    ensures KindFor(KindTag(k)) == Some(k) && ContainerFor(KindTag(k)) == None
    ensures ContainerFor(ContainerTag(c)) == Some(c) && KindFor(ContainerTag(c)) == None
  {
  }

  /** Reads one value from the front of bs. */
  function Decode(bs: Bytes): (r: Option<Parsed<Value>>)
    ensures r.Some? ==> |r.value.rest| < |bs|
    decreases |bs|, 4
  {
    if bs == [] then None else DecodeBody(bs[0], bs[1..])
  }

  function DecodeBody(tag: Byte, bs: Bytes): (r: Option<Parsed<Value>>)
    ensures r.Some? ==> |r.value.rest| <= |bs|
    decreases |bs|, 3
  {
    if tag == 0 then Some(Parsed(Nil, bs))
    else if KindFor(tag).Some? then
      var k := KindFor(tag).value;
      match DecodeScalar(k, bs) case None => None case Some(p) => Some(Parsed(Scalar(k, p.item), p.rest))
    else if tag == 14 then
      match DecodeText(bs) case None => None case Some(p) => Some(Parsed(Text(p.item), p.rest))
    else if tag == 26 then DecodeTemporal(bs)
    else if tag == 25 then DecodeCustom(bs)
    else if ContainerFor(tag).Some? then
      match DecodeLength(bs)
      case None => None
      case Some(p) =>
        if p.item == NIL_LENGTH then Some(Parsed(NilOf(ContainerFor(tag).value), p.rest))
        else DecodeContainer(ContainerFor(tag).value, p.item, p.rest)
    else None
  }

  function DecodeTemporal(bs: Bytes): (r: Option<Parsed<Value>>)
    ensures r.Some? ==> |r.value.rest| < |bs|
  {
    if bs == [] then None else
    match DecodeText(bs[1..]) case None => None case Some(p) => Some(Parsed(Temporal(bs[0], p.item), p.rest))
  }

  function DecodeCustom(bs: Bytes): (r: Option<Parsed<Value>>)
    ensures r.Some? ==> |r.value.rest| < |bs|
  {
    match DecodeText(bs)
    case None => None
    case Some(name) =>
      if name.rest == [] then None else
      match DecodeText(name.rest[1..])
      case None => None
      case Some(hash) => Some(Parsed(Custom(name.item, name.rest[0] == 1, hash.item), hash.rest))
  }

  /** Reads the n elements of a container. */
  function DecodeContainer(c: Container, n: nat, bs: Bytes): (r: Option<Parsed<Value>>)
    ensures r.Some? ==> |r.value.rest| <= |bs|
    decreases |bs|, 6
  {
    match c
    case CStrings => (match DecodeTexts(n, bs) case None => None case Some(p) => Some(Parsed(Strings(p.item), p.rest)))
    case CFixed(e) => (match DecodeScalars(KindOf(e), n, bs) case None => None case Some(p) => Some(Parsed(Fixed(e,
        p.item), p.rest)))
    case CAny => (match DecodeAll(n, bs) case None => None case Some(p) => Some(Parsed(Any(p.item), p.rest)))
    case CMapAny => (match DecodePairs(n, bs) case None => None case Some(p) => Some(Parsed(MapAny(p.item), p.rest)))
    case CMapString => (match DecodeTextPairs(n, bs) case None => None case Some(p) => Some(Parsed(MapString(p.item),
        p.rest)))
  }

  function DecodeAll(n: nat, bs: Bytes): (r: Option<Parsed<seq<Value>>>)
    ensures r.Some? ==> |r.value.rest| <= |bs|
    decreases |bs|, 5
  {
    if n == 0 then Some(Parsed([], bs)) else
    match Decode(bs)
    case None => None
    case Some(p) =>
      match DecodeAll(n - 1, p.rest)
      case None => None
      case Some(q) => Some(Parsed([p.item] + q.item, q.rest))
  }

  function DecodePairs(n: nat, bs: Bytes): (r: Option<Parsed<map<Bytes, Value>>>)
    ensures r.Some? ==> |r.value.rest| <= |bs|
    decreases |bs|, 5
  {
    if n == 0 then Some(Parsed(map[], bs)) else
    match DecodeText(bs)
    case None => None
    case Some(key) =>
      match Decode(key.rest)
      case None => None
      case Some(p) =>
        match DecodePairs(n - 1, p.rest)
        case None => None
        case Some(q) => Some(Parsed(q.item[key.item := p.item], q.rest))
  }

  // ---------- round trip ----------

  /** Strings have fewer than 2^32 bytes and containers fewer than 2^32 - 1 elements, at any depth. */
  ghost predicate Sized(v: Value) {
    match v
    case Text(s) => |s| < TWO_TO_32
    case Temporal(_, s) => |s| < TWO_TO_32
    case Strings(ss) => |ss| < NIL_LENGTH && AllShort(ss)
    case Fixed(_, ns) => |ns| < NIL_LENGTH
    case Any(vs) => |vs| < NIL_LENGTH && forall i :: 0 <= i < |vs| ==> Sized(vs[i])
    case MapAny(m) => |m| < NIL_LENGTH && forall k :: k in m ==> |k| < TWO_TO_32 && Sized(m[k])
    case MapString(sm) => |sm| < NIL_LENGTH && forall k :: k in sm ==> |k| < TWO_TO_32 && |sm[k]| < TWO_TO_32
    case Custom(name, _, hash) => |name| < TWO_TO_32 && |hash| < TWO_TO_32
    case _ => true
  }

  ghost predicate AllShort(ss: seq<Bytes>) { forall i :: 0 <= i < |ss| ==> |ss[i]| < TWO_TO_32 }

  lemma TakeAppend(a: Bytes, rest: Bytes)
    ensures Take(a + rest, |a|) == Some(Parsed(a, rest))
  {
    assert (a + rest)[..|a|] == a && (a + rest)[|a|..] == rest;
  }

  lemma LengthRoundTrip(n: nat, rest: Bytes)
    requires n < TWO_TO_32
    ensures DecodeLength(Length(n) + rest) == Some(Parsed(n, rest))
  {
    assert Pow256(1) == 0x100 && Pow256(2) == 0x1_0000 && Pow256(3) == 0x100_0000 && Pow256(4) == TWO_TO_32;
    BERoundTrip(n, 4);
    TakeAppend(Length(n), rest);
  }

  lemma TextRoundTrip(s: Bytes, rest: Bytes)
    requires |s| < TWO_TO_32
    ensures DecodeText(EncodeText(s) + rest) == Some(Parsed(s, rest))
  {
    assert EncodeText(s) + rest == Length(|s|) + (s + rest);
    LengthRoundTrip(|s|, s + rest);
    TakeAppend(s, rest);
  }

  lemma ScalarRoundTrip(k: Kind, n: int, rest: Bytes)
    requires InRange(k, n)
    ensures DecodeScalar(k, EncodeScalar(k, n) + rest) == Some(Parsed(n, rest))
  {
    var w := if n < 0 then n + Pow256(Size(k)) else n;
    assert Pow256(1) == 256;
    BERoundTrip(w, Size(k));
    TakeAppend(BE(w, Size(k)), rest);
  }

  // One more string in front of strings that read back.
  lemma TextInFront(n: nat, bs: Bytes, p: Parsed<Bytes>, q: Parsed<seq<Bytes>>)
    requires DecodeText(bs) == Some(p) && DecodeTexts(n, p.rest) == Some(q)
    ensures DecodeTexts(n + 1, bs) == Some(Parsed([p.item] + q.item, q.rest))
  {
  }

  lemma {:induction false} TextsRoundTrip(ss: seq<Bytes>, rest: Bytes)
    requires AllShort(ss)
    ensures DecodeTexts(|ss|, EncodeTexts(ss) + rest) == Some(Parsed(ss, rest))
    decreases |ss|
  {
    if ss == [] {
      assert EncodeTexts(ss) + rest == rest;
    } else {
      var bs, tail := EncodeTexts(ss) + rest, EncodeTexts(ss[1..]) + rest;
      Grouped(EncodeText(ss[0]), EncodeTexts(ss[1..]), rest);
      TextRoundTrip(ss[0], tail);
      TextsRoundTrip(ss[1..], rest);
      TextInFront(|ss| - 1, bs, Parsed(ss[0], tail), Parsed(ss[1..], rest));
      assert ss == [ss[0]] + ss[1..];
    }
  }

  lemma {:induction false} ScalarsRoundTrip(k: Kind, ns: seq<int>, rest: Bytes)
    requires AllInRange(k, ns)
    ensures DecodeScalars(k, |ns|, EncodeScalars(k, ns) + rest) == Some(Parsed(ns, rest))
    decreases |ns|
  {
    if ns == [] {
      assert EncodeScalars(k, ns) + rest == rest;
    } else {
      var tail := EncodeScalars(k, ns[1..]) + rest;
      assert EncodeScalars(k, ns) + rest == EncodeScalar(k, ns[0]) + tail;
      ScalarRoundTrip(k, ns[0], tail);
      ScalarsRoundTrip(k, ns[1..], rest);
      assert ns == [ns[0]] + ns[1..];
    }
  }

  /** The part of a map whose keys a list holds. */
  ghost function Restrict<T>(m: map<Bytes, T>, ks: seq<Bytes>): map<Bytes, T> {
    map k | k in m && k in ks :: m[k]
  }

  lemma RestrictCons<T>(m: map<Bytes, T>, ks: seq<Bytes>)
    requires ks != [] && forall k :: k in ks ==> k in m
    ensures Restrict(m, ks) == Restrict(m, ks[1..])[ks[0] := m[ks[0]]]
  {
    assert forall k :: k in ks <==> k == ks[0] || k in ks[1..];
  }

  lemma RestrictAll<T>(m: map<Bytes, T>)
    ensures Restrict(m, Sorted(m.Keys)) == m
    ensures |Sorted(m.Keys)| == |m|
  {
    var ks := Sorted(m.Keys);
    assert Restrict(m, ks).Keys == m.Keys;
    forall i, j | 0 <= i < j < |ks|
      ensures ks[i] != ks[j]
    {
      BelowTotal(ks[i], ks[j]);
    }
    CountDistinct(ks, m.Keys);
  }

  lemma {:induction false} CountDistinct(ks: seq<Bytes>, s: set<Bytes>)
    requires NoRepeats(ks) && forall k :: k in ks <==> k in s
    ensures |ks| == |s|
    decreases |ks|
  {
    if ks != [] {
      assert ks[0] in s;
      assert forall k :: k in ks <==> k == ks[0] || k in ks[1..];
      CountDistinct(ks[1..], s - {ks[0]});
    } else {
      assert s == {};
    }
  }

  // One more pair in front of string pairs that read back.
  lemma TextPairInFront(n: nat, bs: Bytes, key: Parsed<Bytes>, p: Parsed<Bytes>, q: Parsed<map<Bytes, Bytes>>)
    requires DecodeText(bs) == Some(key) && DecodeText(key.rest) == Some(p) && DecodeTextPairs(n, p.rest) == Some(q)
    ensures DecodeTextPairs(n + 1, bs) == Some(Parsed(q.item[key.item := p.item], q.rest))
  {
  }

  lemma {:induction false} TextPairsRoundTrip(m: map<Bytes, Bytes>, ks: seq<Bytes>, rest: Bytes)
    requires forall k :: k in ks ==> k in m && |k| < TWO_TO_32 && |m[k]| < TWO_TO_32
    ensures DecodeTextPairs(|ks|, EncodeTextPairs(m, ks) + rest) == Some(Parsed(Restrict(m, ks), rest))
    decreases |ks|
  {
    if ks == [] {
      assert EncodeTextPairs(m, ks) + rest == rest;
    } else {
      var bs, w, tail := EncodeTextPairs(m, ks) + rest, m[ks[0]], EncodeTextPairs(m, ks[1..]) + rest;
      Pieces(EncodeText(ks[0]), EncodeText(w), EncodeTextPairs(m, ks[1..]), rest);
      TextRoundTrip(ks[0], EncodeText(w) + tail);
      TextRoundTrip(w, tail);
      TextPairsRoundTrip(m, ks[1..], rest);
      TextPairInFront(|ks| - 1, bs, Parsed(ks[0], EncodeText(w) + tail), Parsed(w, tail), Parsed(Restrict(m, ks[1..]),
          rest));
      RestrictCons(m, ks);
    }
  }

  // One more value in front of values that read back.
  lemma ValueInFront(n: nat, bs: Bytes, p: Parsed<Value>, q: Parsed<seq<Value>>)
    requires Decode(bs) == Some(p) && DecodeAll(n, p.rest) == Some(q)
    ensures DecodeAll(n + 1, bs) == Some(Parsed([p.item] + q.item, q.rest))
  {
  }

  lemma {:induction false} AllRoundTrip(vs: seq<Value>, rest: Bytes)
    requires forall i :: 0 <= i < |vs| ==> Typed(vs[i]) && Sized(vs[i])
    ensures DecodeAll(|vs|, EncodeAll(vs) + rest) == Some(Parsed(vs, rest))
    decreases vs
  {
    if vs == [] {
      assert EncodeAll(vs) + rest == rest;
    } else {
      var bs, tail := EncodeAll(vs) + rest, EncodeAll(vs[1..]) + rest;
      Grouped(Encode(vs[0]), EncodeAll(vs[1..]), rest);
      RoundTrip(vs[0], tail);
      AllRoundTrip(vs[1..], rest);
      ValueInFront(|vs| - 1, bs, Parsed(vs[0], tail), Parsed(vs[1..], rest));
      assert vs == [vs[0]] + vs[1..];
    }
  }

  // One more pair in front of pairs that read back.
  lemma PairInFront(n: nat, bs: Bytes, key: Parsed<Bytes>, p: Parsed<Value>, q: Parsed<map<Bytes, Value>>)
    requires DecodeText(bs) == Some(key) && Decode(key.rest) == Some(p) && DecodePairs(n, p.rest) == Some(q)
    ensures DecodePairs(n + 1, bs) == Some(Parsed(q.item[key.item := p.item], q.rest))
  {
  }

  lemma {:induction false} PairsRoundTrip(v: Value, ks: seq<Bytes>, rest: Bytes)
    requires v.MapAny? && Typed(v) && Sized(v) && forall k :: k in ks ==> k in v.m
    ensures DecodePairs(|ks|, EncodePairs(v, ks) + rest) == Some(Parsed(Restrict(v.m, ks), rest))
    decreases v, 0, |ks|
  {
    if ks == [] {
      assert EncodePairs(v, ks) + rest == rest;
    } else {
      var w := v.m[ks[0]];
      var tail := EncodePairs(v, ks[1..]) + rest;
      var bs := EncodePairs(v, ks) + rest;
      Pieces(EncodeText(ks[0]), Encode(w), EncodePairs(v, ks[1..]), rest);
      RoundTrip(w, tail);
      TextRoundTrip(ks[0], Encode(w) + tail);
      PairsRoundTrip(v, ks[1..], rest);
      PairInFront(|ks| - 1, bs, Parsed(ks[0], Encode(w) + tail), Parsed(w, tail), Parsed(Restrict(v.m, ks[1..]), rest));
      RestrictCons(v.m, ks);
    }
  }

  // A container's count is read back and is never mistaken for the nil length.
  lemma ContainerHeader(c: Container, n: nat, items: Bytes)
    requires n < NIL_LENGTH
    ensures DecodeBody(ContainerTag(c), Length(n) + items) == DecodeContainer(c, n, items)
  {
    LengthRoundTrip(n, items);
    ContainerDispatch(c, Length(n) + items, Parsed(n, items));
  }

  lemma ContainerDispatch(c: Container, bs: Bytes, p: Parsed<nat>)
    requires DecodeLength(bs) == Some(p) && p.item != NIL_LENGTH
    ensures DecodeBody(ContainerTag(c), bs) == DecodeContainer(c, p.item, p.rest)
  {
    TagsRoundTrip(KBool, c);
    var tag := ContainerTag(c);
    assert tag >= 15 && tag != 25 && tag != 26;
  }

  lemma ScalarBodyRoundTrip(k: Kind, n: int, rest: Bytes)
    requires InRange(k, n)
    ensures DecodeBody(KindTag(k), EncodeScalar(k, n) + rest) == Some(Parsed(Scalar(k, n), rest))
  {
    TagsRoundTrip(k, CAny);
    ScalarRoundTrip(k, n, rest);
  }

  lemma TemporalRoundTrip(k: Byte, s: Bytes, rest: Bytes)
    requires |s| < TWO_TO_32
    ensures DecodeTemporal([k] + EncodeText(s) + rest) == Some(Parsed(Temporal(k, s), rest))
  {
    assert ([k] + EncodeText(s) + rest)[1..] == EncodeText(s) + rest;
    TextRoundTrip(s, rest);
  }

  lemma TextBodyRoundTrip(s: Bytes, rest: Bytes)
    requires |s| < TWO_TO_32
    ensures DecodeBody(14, EncodeText(s) + rest) == Some(Parsed(Text(s), rest))
  {
    TextRoundTrip(s, rest);
  }

  lemma TemporalBodyRoundTrip(k: Byte, s: Bytes, rest: Bytes)
    requires |s| < TWO_TO_32
    ensures DecodeBody(26, [k] + EncodeText(s) + rest) == Some(Parsed(Temporal(k, s), rest))
  {
    TemporalRoundTrip(k, s, rest);
  }

  lemma NilRoundTrip(c: Container, rest: Bytes)
    ensures DecodeBody(ContainerTag(c), Length(NIL_LENGTH) + rest) == Some(Parsed(NilOf(c), rest))
  {
    TagsRoundTrip(KBool, c);
    LengthRoundTrip(NIL_LENGTH, rest);
  }

  lemma CustomRoundTrip(name: Bytes, flag: Byte, hash: Bytes, rest: Bytes)
    requires |name| < TWO_TO_32 && |hash| < TWO_TO_32
    ensures DecodeCustom(EncodeText(name) + [flag] + EncodeText(hash) + rest) == Some(Parsed(Custom(name, flag == 1,
        hash), rest))
  {
    var tail := EncodeText(hash) + rest;
    Pieces(EncodeText(name), [flag], EncodeText(hash), rest);
    TextRoundTrip(name, [flag] + tail);
    assert ([flag] + tail)[1..] == tail;
    TextRoundTrip(hash, rest);
  }

  lemma CustomDispatch(bs: Bytes)
    ensures DecodeBody(25, bs) == DecodeCustom(bs)
  {
  }

  lemma CustomBodyRoundTrip(name: Bytes, pointer: bool, hash: Bytes, rest: Bytes)
    requires |name| < TWO_TO_32 && |hash| < TWO_TO_32
    ensures DecodeBody(25, EncodeText(name) + [if pointer then 1
        else 0] + EncodeText(hash) + rest) == Some(Parsed(Custom(name, pointer, hash), rest))
  {
    var flag: Byte := if pointer then 1 else 0;
    var bs := EncodeText(name) + [flag] + EncodeText(hash) + rest;
    CustomRoundTrip(name, flag, hash, rest);
    CustomDispatch(bs);
  }

  lemma StringsRoundTrip(ss: seq<Bytes>, rest: Bytes)
    requires |ss| < NIL_LENGTH && AllShort(ss)
    ensures DecodeBody(ContainerTag(CStrings), Length(|ss|) + EncodeTexts(ss) + rest) == Some(Parsed(Strings(ss), rest))
  {
    var items := EncodeTexts(ss) + rest;
    assert Length(|ss|) + EncodeTexts(ss) + rest == Length(|ss|) + items;
    ContainerHeader(CStrings, |ss|, items);
    TextsRoundTrip(ss, rest);
  }

  lemma FixedRoundTrip(e: Elem, ns: seq<int>, rest: Bytes)
    requires |ns| < NIL_LENGTH && AllInRange(KindOf(e), ns)
    ensures DecodeBody(ContainerTag(CFixed(e)), Length(|ns|) + EncodeScalars(KindOf(e),
        ns) + rest) == Some(Parsed(Fixed(e, ns), rest))
  {
    var items := EncodeScalars(KindOf(e), ns) + rest;
    assert Length(|ns|) + EncodeScalars(KindOf(e), ns) + rest == Length(|ns|) + items;
    ContainerHeader(CFixed(e), |ns|, items);
    ScalarsRoundTrip(KindOf(e), ns, rest);
  }

  lemma TextMapFromItems(sm: map<Bytes, Bytes>, items: Bytes, rest: Bytes)
    requires |sm| < NIL_LENGTH && DecodeTextPairs(|sm|, items) == Some(Parsed(sm, rest))
    ensures DecodeBody(ContainerTag(CMapString), Length(|sm|) + items) == Some(Parsed(MapString(sm), rest))
  {
    ContainerHeader(CMapString, |sm|, items);
  }

  lemma MapStringRoundTrip(sm: map<Bytes, Bytes>, rest: Bytes)
    requires |sm| < NIL_LENGTH && forall k :: k in sm ==> |k| < TWO_TO_32 && |sm[k]| < TWO_TO_32
    ensures DecodeBody(ContainerTag(CMapString), Length(|sm|) + EncodeTextPairs(sm,
        Sorted(sm.Keys)) + rest) == Some(Parsed(MapString(sm), rest))
  {
    var ks := Sorted(sm.Keys);
    RestrictAll(sm);
    TextPairsRoundTrip(sm, ks, rest);
    Grouped(Length(|sm|), EncodeTextPairs(sm, ks), rest);
    TextMapFromItems(sm, EncodeTextPairs(sm, ks) + rest, rest);
  }

  // Nested values aside, each body reads back.
  lemma FlatBodyRoundTrip(v: Value, rest: Bytes)
    requires Typed(v) && Sized(v) && !v.Any? && !v.MapAny?
    ensures DecodeBody(Tag(v), EncodeBody(v) + rest) == Some(Parsed(v, rest))
  {
    match v
    case Nil => assert EncodeBody(v) + rest == rest;
    case Scalar(k, n) => ScalarBodyRoundTrip(k, n, rest);
    case Text(s) => TextBodyRoundTrip(s, rest);
    case Temporal(k, s) => TemporalBodyRoundTrip(k, s, rest);
    case Custom(name, pointer, hash) => CustomBodyRoundTrip(name, pointer, hash, rest);
    case _ => FlatContainerRoundTrip(v, rest);
  }

  lemma FlatContainerRoundTrip(v: Value, rest: Bytes)
    requires Typed(v) && Sized(v) && (v.NilOf? || v.Strings? || v.Fixed? || v.MapString?)
    ensures DecodeBody(Tag(v), EncodeBody(v) + rest) == Some(Parsed(v, rest))
  {
    match v
    case NilOf(c) => NilRoundTrip(c, rest);
    case Strings(ss) => StringsRoundTrip(ss, rest);
    case Fixed(e, ns) => FixedRoundTrip(e, ns, rest);
    case MapString(sm) => MapStringRoundTrip(sm, rest);
  }

  lemma AnyFromItems(vs: seq<Value>, items: Bytes, rest: Bytes)
    requires |vs| < NIL_LENGTH && DecodeAll(|vs|, items) == Some(Parsed(vs, rest))
    ensures DecodeBody(ContainerTag(CAny), Length(|vs|) + items) == Some(Parsed(Any(vs), rest))
  {
    ContainerHeader(CAny, |vs|, items);
  }

  lemma MapFromItems(m: map<Bytes, Value>, items: Bytes, rest: Bytes)
    requires |m| < NIL_LENGTH && DecodePairs(|m|, items) == Some(Parsed(m, rest))
    ensures DecodeBody(ContainerTag(CMapAny), Length(|m|) + items) == Some(Parsed(MapAny(m), rest))
  {
    ContainerHeader(CMapAny, |m|, items);
  }

  lemma {:induction false} BodyRoundTrip(v: Value, rest: Bytes)
    requires Typed(v) && Sized(v)
    ensures DecodeBody(Tag(v), EncodeBody(v) + rest) == Some(Parsed(v, rest))
    decreases v, 1
  {
    if v.Any? {
      AllRoundTrip(v.vs, rest);
      AnyFromItems(v.vs, EncodeAll(v.vs) + rest, rest);
      Grouped(Length(|v.vs|), EncodeAll(v.vs), rest);
    } else if v.MapAny? {
      var ks := Sorted(v.m.Keys);
      RestrictAll(v.m);
      PairsRoundTrip(v, ks, rest);
      MapFromItems(v.m, EncodePairs(v, ks) + rest, rest);
      Grouped(Length(|v.m|), EncodePairs(v, ks), rest);
    } else {
      FlatBodyRoundTrip(v, rest);
    }
  }

  lemma Pieces(a: Bytes, b: Bytes, c: Bytes, d: Bytes)
    ensures a + b + c + d == a + (b + (c + d))
  {
  }

  lemma Grouped(a: Bytes, b: Bytes, c: Bytes)
    ensures (a + b) + c == a + (b + c)
  {
  }

  lemma TagThenBody(tag: Byte, body: Bytes, rest: Bytes)
    ensures Decode([tag] + body + rest) == DecodeBody(tag, body + rest)
  {
    var bs := [tag] + body + rest;
    assert bs[0] == tag && bs[1..] == body + rest;
  }

  /** From the encoding of a value followed by anything, the decoder recovers the value and what follows. */
  lemma {:induction false} RoundTrip(v: Value, rest: Bytes)
    requires Typed(v) && Sized(v)
    ensures Decode(Encode(v) + rest) == Some(Parsed(v, rest))
    decreases v, 2
  {
    BodyRoundTrip(v, rest);
    TagThenBody(Tag(v), EncodeBody(v), rest);
  }

  /** No encoding is a prefix of another value's encoding: values and what follows them are determined by the bytes. */
  lemma EncodingIsInjective(v: Value, rest: Bytes, w: Value, rest': Bytes)
    requires Typed(v) && Sized(v) && Typed(w) && Sized(w)
    ensures Encode(v) + rest == Encode(w) + rest' <==> v == w && rest == rest'
  {
    RoundTrip(v, rest);
    RoundTrip(w, rest');
  }

  // ---------- the length bounds are exact ----------

  lemma {:induction false} UnBEBound(bs: Bytes)
    ensures UnBE(bs) < Pow256(|bs|)
    decreases |bs|
  {
    if bs != [] {
      UnBEBound(bs[..|bs| - 1]);
    }
  }

  lemma DecodedLength(bs: Bytes)
    ensures DecodeLength(bs).Some? ==> DecodeLength(bs).value.item < TWO_TO_32
  {
    if |bs| >= 4 {
      UnBEBound(bs[..4]);
      assert Pow256(1) == 0x100 && Pow256(2) == 0x1_0000 && Pow256(3) == 0x100_0000 && Pow256(4) == TWO_TO_32;
    }
  }

  lemma DecodedText(bs: Bytes)
    ensures DecodeText(bs).Some? ==> |DecodeText(bs).value.item| < TWO_TO_32
  {
    DecodedLength(bs);
  }

  lemma {:induction false} DecodedTexts(n: nat, bs: Bytes)
    ensures DecodeTexts(n, bs).Some? ==> |DecodeTexts(n, bs).value.item| == n && AllShort(DecodeTexts(n, bs).value.item)
    decreases n
  {
    if n > 0 && DecodeText(bs).Some? {
      DecodedText(bs);
      DecodedTexts(n - 1, DecodeText(bs).value.rest);
    }
  }

  lemma {:induction false} DecodedScalars(k: Kind, n: nat, bs: Bytes)
    ensures DecodeScalars(k, n, bs).Some? ==> |DecodeScalars(k, n, bs).value.item| == n
    decreases n
  {
    if n > 0 && DecodeScalar(k, bs).Some? {
      DecodedScalars(k, n - 1, DecodeScalar(k, bs).value.rest);
    }
  }

  ghost predicate SizedTexts(m: map<Bytes, Bytes>) { forall k :: k in m ==> |k| < TWO_TO_32 && |m[k]| < TWO_TO_32 }

  lemma SizedTextsGrow(m: map<Bytes, Bytes>, n: nat, k: Bytes, v: Bytes)
    requires |m| <= n && SizedTexts(m) && |k| < TWO_TO_32 && |v| < TWO_TO_32
    ensures |m[k := v]| <= n + 1 && SizedTexts(m[k := v])
  {
    assert m[k := v].Keys == m.Keys + {k};
  }

  ghost predicate TextPairsFit(n: nat, r: Option<Parsed<map<Bytes, Bytes>>>) {
    r.Some? ==> |r.value.item| <= n && SizedTexts(r.value.item)
  }

  lemma TextPairsFitNext(n: nat, bs: Bytes, key: Parsed<Bytes>, p: Parsed<Bytes>)
    requires DecodeText(bs) == Some(key) && DecodeText(key.rest) == Some(p)
    requires TextPairsFit(n, DecodeTextPairs(n, p.rest))
    ensures TextPairsFit(n + 1, DecodeTextPairs(n + 1, bs))
  {
    DecodedText(bs);
    DecodedText(key.rest);
    var r := DecodeTextPairs(n, p.rest);
    if r.Some? {
      TextPairInFront(n, bs, key, p, r.value);
      SizedTextsGrow(r.value.item, n, key.item, p.item);
    }
  }

  lemma NoTextPairs(n: nat, bs: Bytes)
    requires n == 0 || DecodeText(bs).None? || DecodeText(DecodeText(bs).value.rest).None?
    ensures TextPairsFit(n, DecodeTextPairs(n, bs))
  {
  }

  lemma {:induction false} DecodedTextPairs(n: nat, bs: Bytes)
    ensures TextPairsFit(n, DecodeTextPairs(n, bs))
    decreases n
  {
    if n == 0 || DecodeText(bs).None? || DecodeText(DecodeText(bs).value.rest).None? {
      NoTextPairs(n, bs);
    } else {
      var key := DecodeText(bs).value;
      var p := DecodeText(key.rest).value;
      var k: nat :| k + 1 == n;
      DecodedTextPairs(k, p.rest);
      TextPairsFitNext(k, bs, key, p);
    }
  }

  ghost predicate AllSized(vs: seq<Value>) { forall i :: 0 <= i < |vs| ==> Sized(vs[i]) }

  ghost predicate SizedPairs(m: map<Bytes, Value>) { forall k :: k in m ==> |k| < TWO_TO_32 && Sized(m[k]) }

  lemma {:induction false} DecodedAll(n: nat, bs: Bytes)
    ensures DecodeAll(n, bs).Some? ==> |DecodeAll(n, bs).value.item| == n && AllSized(DecodeAll(n, bs).value.item)
    decreases |bs|, 5
  {
    if n > 0 && Decode(bs).Some? {
      DecodedIsSized(bs);
      DecodedAll(n - 1, Decode(bs).value.rest);
    }
  }

  lemma {:induction false} DecodedPairs(n: nat, bs: Bytes)
    ensures DecodePairs(n, bs).Some? ==>
      |DecodePairs(n, bs).value.item| <= n && SizedPairs(DecodePairs(n, bs).value.item)
    decreases |bs|, 5
  {
    if n > 0 && DecodeText(bs).Some? {
      DecodedText(bs);
      var mid := DecodeText(bs).value.rest;
      DecodedIsSized(mid);
      if Decode(mid).Some? {
        DecodedPairs(n - 1, Decode(mid).value.rest);
      }
    }
  }

  lemma {:induction false} DecodedContainer(c: Container, n: nat, bs: Bytes)
    requires n < NIL_LENGTH
    ensures DecodeContainer(c, n, bs).Some? ==> Sized(DecodeContainer(c, n, bs).value.item)
    decreases |bs|, 6
  {
    match c
    case CStrings => DecodedTexts(n, bs);
    case CFixed(e) => DecodedScalars(KindOf(e), n, bs);
    case CAny => DecodedAll(n, bs);
    case CMapAny => DecodedPairs(n, bs);
    case CMapString => DecodedTextPairs(n, bs);
  }

  lemma DecodedCustom(bs: Bytes)
    ensures DecodeCustom(bs).Some? ==> Sized(DecodeCustom(bs).value.item)
  {
    DecodedText(bs);
    if DecodeText(bs).Some? && DecodeText(bs).value.rest != [] {
      DecodedText(DecodeText(bs).value.rest[1..]);
    }
  }

  lemma DecodedTemporal(bs: Bytes)
    ensures DecodeTemporal(bs).Some? ==> Sized(DecodeTemporal(bs).value.item)
  {
    if bs != [] {
      DecodedText(bs[1..]);
    }
  }

  lemma {:induction false} DecodedBody(tag: Byte, bs: Bytes)
    ensures DecodeBody(tag, bs).Some? ==> Sized(DecodeBody(tag, bs).value.item)
    decreases |bs|, 7
  {
    if tag == 0 || KindFor(tag).Some? {
    } else if tag == 14 {
      DecodedText(bs);
    } else if tag == 26 {
      DecodedTemporal(bs);
    } else if tag == 25 {
      DecodedCustom(bs);
    } else if ContainerFor(tag).Some? && DecodeLength(bs).Some? {
      var p := DecodeLength(bs).value;
      DecodedLength(bs);
      if p.item != NIL_LENGTH {
        DecodedContainer(ContainerFor(tag).value, p.item, p.rest);
      }
    }
  }

  /** Whatever the bytes, only values within the length bounds are read from them. */
  lemma {:induction false} DecodedIsSized(bs: Bytes)
    ensures Decode(bs).Some? ==> Sized(Decode(bs).value.item)
    decreases |bs|, 4
  {
    if bs != [] {
      DecodedBody(bs[0], bs[1..]);
    }
  }

  /** The bounds are exact: a value can be read back from its encoding if and only if it keeps to them. */
  lemma ReadsBackIffSized(v: Value, rest: Bytes)
    requires Typed(v)
    ensures Decode(Encode(v) + rest) == Some(Parsed(v, rest)) <==> Sized(v)
  {
    DecodedIsSized(Encode(v) + rest);
    if Sized(v) {
      RoundTrip(v, rest);
    }
  }

  // ---------- beyond the bounds ----------

  ghost function Nils(n: nat): seq<Value> { seq(n, _ => Nil) }

  function Zeros(n: nat): Bytes { seq(n, _ => 0) }

  lemma {:induction false} NilsAreZeros(n: nat)
    ensures EncodeAll(Nils(n)) == Zeros(n)
  {
    if n > 0 {
      NilsAreZeros(n - 1);
      assert Nils(n)[1..] == Nils(n - 1);
      assert Zeros(n) == [0] + Zeros(n - 1);
      assert Encode(Nil) == [0];
    }
  }

  lemma AllOfOne(v: Value)
    requires Typed(v)
    ensures EncodeAll([v]) == Encode(v)
  {
    assert [v][1..] == [];
  }

  /**
   Beyond the bounds distinct values collide: lengths are written modulo 2^32, so a list holding one
   string of 2^32 zero bytes encodes like a list of an empty string followed by 2^32 nils.
  */
  lemma TruncatedLengthsCollide(n: nat)
    requires n == TWO_TO_32
    ensures Typed(Any([Text(Zeros(n))])) && Typed(Any([Text([])] + Nils(n)))
    ensures Any([Text(Zeros(n))]) != Any([Text([])] + Nils(n))
    ensures Encode(Any([Text(Zeros(n))])) == Encode(Any([Text([])] + Nils(n)))
  {
    var long, short := Text(Zeros(n)), Text([]);
    var vs := [short] + Nils(n);
    NilsAreZeros(n);
    AllOfOne(long);
    assert vs[1..] == Nils(n);
    assert EncodeAll(vs) == Encode(short) + Zeros(n);
    assert Length(n) == Length(0) && Length(|vs|) == Length(1);
    assert Encode(long) == [14] + (Length(0) + Zeros(n));
    assert Encode(short) == [14] + (Length(0) + []);
    assert Encode(long) == EncodeAll(vs);
  }
}
