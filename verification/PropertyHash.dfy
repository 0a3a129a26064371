/**
 The code that appends hash bytes, proved against the encoding, and what the integrity hash of a
 property map therefore covers.
*/
module PropertyHash {
  import opened Options
  import opened ByteStrings
  import opened PropertyEncoding
  import opened PropertySlices

  datatype Outcome = Panicked | Appended(bytes: Bytes)

  // ---------- appending element by element ----------

  lemma {:induction false} TextsSnoc(ss: seq<Bytes>, s: Bytes)
    ensures EncodeTexts(ss + [s]) == EncodeTexts(ss) + EncodeText(s)
    decreases |ss|
  {
    if ss == [] {
      assert ss + [s] == [s] && EncodeTexts([s][1..]) == [];
    } else {
      TextsSnoc(ss[1..], s);
      assert (ss + [s])[1..] == ss[1..] + [s];
    }
  }

  method AppendTexts(buf: Bytes, ss: seq<Bytes>) returns (out: Bytes)
    ensures out == buf + EncodeTexts(ss)
  {
    out := buf;
    for i := 0 to |ss|
      invariant out == buf + EncodeTexts(ss[..i])
    {
      out := out + Length(|ss[i]|);
      out := out + ss[i];
      assert ss[..i + 1] == ss[..i] + [ss[i]];
      TextsSnoc(ss[..i], ss[i]);
    }
    assert ss[..|ss|] == ss;
  }

  lemma {:induction false} ScalarsSnoc(k: Kind, ns: seq<int>, n: int)
    requires AllInRange(k, ns) && InRange(k, n)
    ensures EncodeScalars(k, ns + [n]) == EncodeScalars(k, ns) + EncodeScalar(k, n)
    decreases |ns|
  {
    if ns == [] {
      assert ns + [n] == [n] && EncodeScalars(k, [n][1..]) == [];
    } else {
      ScalarsSnoc(k, ns[1..], n);
      assert (ns + [n])[1..] == ns[1..] + [n];
    }
  }

  method AppendScalars(buf: Bytes, k: Kind, ns: seq<int>) returns (out: Bytes)
    requires AllInRange(k, ns)
    ensures out == buf + EncodeScalars(k, ns)
  {
    out := buf;
    for i := 0 to |ns|
      invariant out == buf + EncodeScalars(k, ns[..i])
    {
      out := out + EncodeScalar(k, ns[i]);
      assert ns[..i + 1] == ns[..i] + [ns[i]];
      ScalarsSnoc(k, ns[..i], ns[i]);
    }
    assert ns[..|ns|] == ns;
  }

  lemma Regrouped(a: Bytes, b: Bytes, done: Bytes, x: Bytes, y: Bytes)
    ensures a + b + (done + x + y) == (a + b + done) + x + y
  {
  }

  lemma {:induction false} TextPairsSnoc(m: map<Bytes, Bytes>, ks: seq<Bytes>, k: Bytes)
    requires k in m && forall x :: x in ks ==> x in m
    ensures EncodeTextPairs(m, ks + [k]) == EncodeTextPairs(m, ks) + EncodeText(k) + EncodeText(m[k])
    decreases |ks|
  {
    if ks == [] {
      assert ks + [k] == [k] && EncodeTextPairs(m, [k][1..]) == [];
    } else {
      TextPairsSnoc(m, ks[1..], k);
      assert (ks + [k])[1..] == ks[1..] + [k];
      Regrouped(EncodeText(ks[0]), EncodeText(m[ks[0]]), EncodeTextPairs(m, ks[1..]), EncodeText(k), EncodeText(m[k]));
    }
  }

  // Two pieces appended one after the other extend what was appended so far.
  lemma TwoPieces(buf: Bytes, done: Bytes, x: Bytes, y: Bytes)
    ensures buf + done + x + y == buf + (done + x + y)
  {
  }

  method AppendTextPairs(buf: Bytes, m: map<Bytes, Bytes>, ks: seq<Bytes>) returns (out: Bytes)
    requires forall k :: k in ks ==> k in m
    ensures out == buf + EncodeTextPairs(m, ks)
  {
    out := buf;
    for i := 0 to |ks|
      invariant out == buf + EncodeTextPairs(m, ks[..i])
    {
      var k := ks[i];
      ghost var done := EncodeTextPairs(m, ks[..i]);
      assert ks[..i + 1] == ks[..i] + [k];
      TextPairsSnoc(m, ks[..i], k);
      var key, value := EncodeText(k), EncodeText(m[k]);
      out := out + key + value;
      TwoPieces(buf, done, key, value);
    }
    assert ks[..|ks|] == ks;
  }

  lemma {:induction false} AllSnoc(vs: seq<Value>, v: Value)
    requires Typed(v) && forall i :: 0 <= i < |vs| ==> Typed(vs[i])
    ensures EncodeAll(vs + [v]) == EncodeAll(vs) + Encode(v)
    decreases |vs|
  {
    if vs == [] {
      assert vs + [v] == [v] && EncodeAll([v][1..]) == [];
    } else {
      AllSnoc(vs[1..], v);
      assert (vs + [v])[1..] == vs[1..] + [v];
      Grouped(Encode(vs[0]), EncodeAll(vs[1..]), Encode(v));
    }
  }

  lemma {:induction false} PairsSnoc(v: Value, ks: seq<Bytes>, k: Bytes)
    requires v.MapAny? && Typed(v) && k in v.m && forall x :: x in ks ==> x in v.m
    ensures EncodePairs(v, ks + [k]) == EncodePairs(v, ks) + EncodeText(k) + Encode(v.m[k])
    decreases |ks|
  {
    if ks == [] {
      assert ks + [k] == [k] && EncodePairs(v, [k][1..]) == [];
    } else {
      PairsSnoc(v, ks[1..], k);
      assert (ks + [k])[1..] == ks[1..] + [k];
      Regrouped(EncodeText(ks[0]), Encode(v.m[ks[0]]), EncodePairs(v, ks[1..]), EncodeText(k), Encode(v.m[k]));
    }
  }

  method AppendAll(buf: Bytes, vs: seq<Value>, depth: nat) returns (r: Outcome)
    requires forall i :: 0 <= i < |vs| ==> Typed(vs[i])
    ensures r.Panicked? <==> exists i :: 0 <= i < |vs| && TooDeep(vs[i], depth)
    ensures r.Appended? ==> r.bytes == buf + EncodeAll(vs)
    decreases vs, 0
  {
    var out := buf;
    for i := 0 to |vs|
      invariant out == buf + EncodeAll(vs[..i])
      invariant forall j :: 0 <= j < i ==> !TooDeep(vs[j], depth)
    {
      var v := vs[i];
      ghost var done := EncodeAll(vs[..i]);
      assert vs[..i + 1] == vs[..i] + [v];
      AllSnoc(vs[..i], v);
      ghost var value := Encode(v);
      r := AppendValue(out, v, depth);
      if r.Panicked? {
        return;
      }
      Grouped(buf, done, value);
      out := r.bytes;
    }
    assert vs[..|vs|] == vs;
    r := Appended(out);
  }

  method AppendPairs(buf: Bytes, v: Value, ks: seq<Bytes>, depth: nat) returns (r: Outcome)
    requires v.MapAny? && Typed(v) && forall k :: k in ks ==> k in v.m
    ensures r.Panicked? <==> exists k :: k in ks && TooDeep(v.m[k], depth)
    ensures r.Appended? ==> r.bytes == buf + EncodePairs(v, ks)
    decreases v, 0
  {
    var out := buf;
    for i := 0 to |ks|
      invariant out == buf + EncodePairs(v, ks[..i])
      invariant forall j :: 0 <= j < i ==> !TooDeep(v.m[ks[j]], depth)
    {
      var k := ks[i];
      ghost var done := EncodePairs(v, ks[..i]);
      assert ks[..i + 1] == ks[..i] + [k];
      PairsSnoc(v, ks[..i], k);
      ghost var value := Encode(v.m[k]);
      var key := EncodeText(k);
      r := AppendValue(out + key, v.m[k], depth);
      if r.Panicked? {
        return;
      }
      TwoPieces(buf, done, key, value);
      out := r.bytes;
    }
    assert ks[..|ks|] == ks;
    r := Appended(out);
  }

  lemma ThreePieces(buf: Bytes, x: Bytes, y: Bytes, z: Bytes)
    ensures buf + x + y + z == buf + (x + y + z)
  {
  }

  /** Everything after the tag, for the values that hold no other values. */
  method AppendFlat(buf: Bytes, v: Value) returns (out: Bytes)
    requires Typed(v) && !v.Any? && !v.MapAny?
    ensures out == buf + EncodeBody(v)
  {
    match v {
      case Nil => out := buf;
      case Scalar(k, n) => out := buf + EncodeScalar(k, n);
      case Text(s) => out := buf + Length(|s|) + s;
      case Temporal(k, s) => out := buf + [k] + Length(|s|) + s;
      case NilOf(_) => out := buf + Length(NIL_LENGTH);
      case Strings(ss) => out := AppendTexts(buf + Length(|ss|), ss);
      case Fixed(e, ns) => out := AppendScalars(buf + Length(|ns|), KindOf(e), ns);
      case MapString(sm) =>
        var ks := CollectSorted(sm.Keys);
        out := AppendTextPairs(buf + Length(|sm|), sm, ks);
      case Custom(name, pointer, hash) =>
        var flag: Byte := if pointer then 1 else 0;
        out := buf + EncodeText(name) + [flag] + EncodeText(hash);
        ThreePieces(buf, EncodeText(name), [flag], EncodeText(hash));
    }
  }

  /** Appends the typed binary form of a value, or panics on a value nested too deeply. */
  method AppendValue(buf: Bytes, v: Value, depth: nat) returns (r: Outcome)
    requires Typed(v)
    ensures r.Panicked? <==> TooDeep(v, depth)
    ensures r.Appended? ==> r.bytes == buf + Encode(v)
    decreases v, 1
  {
    if depth > MAX_DEPTH {
      return Panicked;
    }
    ghost var body := EncodeBody(v);
    var tag := [Tag(v)];
    if v.Any? {
      var n := Length(|v.vs|);
      r := AppendAll(buf + tag + n, v.vs, depth + 1);
      TwoPieces(buf, tag, n, EncodeAll(v.vs));
    } else if v.MapAny? {
      var ks := CollectSorted(v.m.Keys);
      var n := Length(|v.m|);
      r := AppendPairs(buf + tag + n, v, ks, depth + 1);
      TwoPieces(buf, tag, n, EncodePairs(v, ks));
    } else {
      var out := AppendFlat(buf + tag, v);
      Grouped(buf, tag, body);
      r := Appended(out);
    }
  }

  // ---------- values whose hashing runs user code ----------

  /** A temporal or custom value sits somewhere inside v. */
  ghost predicate HoldsOpaque(v: Value)
    decreases v
  {
    || v.Temporal?
    || v.Custom?
    || (v.Any? && exists i :: 0 <= i < |v.vs| && HoldsOpaque(v.vs[i]))
    || (v.MapAny? && exists k :: k in v.m && HoldsOpaque(v.m[k]))
  }

  /**
   Whether hashing must be guarded: exactly if it would panic, or a temporal or custom value is inside. The
   walk stops at the first reason it finds.
  */
  method HashNeedsRecover(v: Value, depth: nat) returns (b: bool)
    ensures b <==> TooDeep(v, depth) || HoldsOpaque(v)
    decreases v
  {
    if depth > MAX_DEPTH {
      return true;
    }
    if v.Any? {
      for i := 0 to |v.vs|
        invariant forall j :: 0 <= j < i ==> !TooDeep(v.vs[j], depth + 1) && !HoldsOpaque(v.vs[j])
      {
        b := HashNeedsRecover(v.vs[i], depth + 1);
        if b {
          return;
        }
      }
      return false;
    } else if v.MapAny? {
      var rest := v.m.Keys;
      while rest != {}
        invariant rest <= v.m.Keys && forall k :: k in v.m && k !in rest ==>
            !TooDeep(v.m[k], depth + 1) && !HoldsOpaque(v.m[k])
      {
        var k :| k in rest;
        b := HashNeedsRecover(v.m[k], depth + 1);
        if b {
          return;
        }
        rest := rest - {k};
      }
      return false;
    }
    b := v.Temporal? || v.Custom?;
  }

  // ---------- the hash bytes of a property slice ----------

  ghost predicate TypedEntries(ps: PropertySlice) { forall i :: 0 <= i < |ps| ==> Typed(ps[i].value) }

  ghost predicate SizedEntries(ps: PropertySlice) { forall i :: 0 <= i < |ps| ==>
      |ps[i].key| < TWO_TO_32 && Sized(ps[i].value) }

  /** Keys and values one after the other, with no count in front. */
  ghost function EncodeEntries(ps: PropertySlice): Bytes
    requires TypedEntries(ps)
  {
    if ps == [] then [] else EncodeText(ps[0].key) + Encode(ps[0].value) + EncodeEntries(ps[1..])
  }

  function DecodeEntries(bs: Bytes): Option<PropertySlice>
    decreases |bs|
  {
    if bs == [] then Some([]) else
    match DecodeText(bs)
    case None => None
    case Some(key) =>
      match Decode(key.rest)
      case None => None
      case Some(p) =>
        match DecodeEntries(p.rest)
        case None => None
        case Some(ps) => Some([Property(key.item, p.item)] + ps)
  }

  lemma EntryInFront(bs: Bytes, key: Parsed<Bytes>, p: Parsed<Value>, ps: PropertySlice)
    requires bs != [] && DecodeText(bs) == Some(key) && Decode(key.rest) == Some(p) && DecodeEntries(p.rest) == Some(ps)
    ensures DecodeEntries(bs) == Some([Property(key.item, p.item)] + ps)
  {
  }

  lemma {:induction false} EntriesRoundTrip(ps: PropertySlice)
    requires TypedEntries(ps) && SizedEntries(ps)
    ensures DecodeEntries(EncodeEntries(ps)) == Some(ps)
    decreases |ps|
  {
    if ps != [] {
      var key, value, tail := ps[0].key, ps[0].value, EncodeEntries(ps[1..]);
      var bs, code := EncodeEntries(ps), Encode(value);
      Grouped(EncodeText(key), code, tail);
      TextRoundTrip(key, code + tail);
      RoundTrip(value, tail);
      EntriesRoundTrip(ps[1..]);
      assert |EncodeText(key)| > 0;
      EntryInFront(bs, Parsed(key, code + tail), Parsed(value, tail), ps[1..]);
      assert ps == [ps[0]] + ps[1..];
    }
  }

  lemma {:induction false} EntriesSnoc(ps: PropertySlice, p: Property)
    requires TypedEntries(ps) && Typed(p.value)
    ensures EncodeEntries(ps + [p]) == EncodeEntries(ps) + EncodeText(p.key) + Encode(p.value)
    decreases |ps|
  {
    if ps == [] {
      assert ps + [p] == [p] && EncodeEntries([p][1..]) == [];
    } else {
      EntriesSnoc(ps[1..], p);
      assert (ps + [p])[1..] == ps[1..] + [p];
      Regrouped(EncodeText(ps[0].key), Encode(ps[0].value), EncodeEntries(ps[1..]), EncodeText(p.key), Encode(p.value));
    }
  }

  /** Appends every entry in slice order, or panics on the first value nested too deeply. */
  method AppendHashBytes(buf: Bytes, ps: PropertySlice) returns (r: Outcome)
    requires TypedEntries(ps)
    ensures r.Panicked? <==> exists i :: 0 <= i < |ps| && TooDeep(ps[i].value, 0)
    ensures r.Appended? ==> r.bytes == buf + EncodeEntries(ps)
  {
    var out := buf;
    for i := 0 to |ps|
      invariant out == buf + EncodeEntries(ps[..i])
      invariant forall j :: 0 <= j < i ==> !TooDeep(ps[j].value, 0)
    {
      var p := ps[i];
      ghost var done := EncodeEntries(ps[..i]);
      assert ps[..i + 1] == ps[..i] + [p];
      EntriesSnoc(ps[..i], p);
      ghost var value := Encode(p.value);
      var key := EncodeText(p.key);
      r := AppendValue(out + key, p.value, 0);
      if r.Panicked? {
        return;
      }
      TwoPieces(buf, done, key, value);
      out := r.bytes;
    }
    assert ps[..|ps|] == ps;
    r := Appended(out);
  }

  /** Two sorted slices have the same hash bytes if and only if they stand for the same map. */
  lemma HashBytesCoverContents(ps: PropertySlice, qs: PropertySlice)
    requires SortedByKey(ps) && TypedEntries(ps) && SizedEntries(ps)
    requires SortedByKey(qs) && TypedEntries(qs) && SizedEntries(qs)
    ensures EncodeEntries(ps) == EncodeEntries(qs) <==> Contents(ps) == Contents(qs)
  {
    EntriesRoundTrip(ps);
    EntriesRoundTrip(qs);
    SortedSliceUnique(ps, qs);
  }

  ghost predicate Hashable(m: map<Bytes, Value>) {
    forall k :: k in m ==> |k| < TWO_TO_32 && Typed(m[k]) && Sized(m[k])
  }

  /** The one sorted slice of a map. */
  ghost function SliceOf(m: map<Bytes, Value>): PropertySlice {
    var ks := Sorted(m.Keys);
    seq(|ks|, i requires 0 <= i < |ks| => assert ks[i] in ks; Property(ks[i], m[ks[i]]))
  }

  lemma SliceOfContents(m: map<Bytes, Value>)
    ensures SortedByKey(SliceOf(m)) && Contents(SliceOf(m)) == m
  {
    var ks, ps := Sorted(m.Keys), SliceOf(m);
    forall k | k in m
      ensures exists i :: 0 <= i < |ps| && ps[i].key == k
    {
      assert k in ks;
      var i :| 0 <= i < |ks| && ks[i] == k;
      assert ps[i].key == k;
    }
    ListedIsContents(ps, m);
  }

  lemma HashableEntries(ps: PropertySlice, m: map<Bytes, Value>)
    requires Lists(ps, m) && Hashable(m)
    ensures TypedEntries(ps) && SizedEntries(ps)
  {
  }

  lemma SliceOfHashable(m: map<Bytes, Value>)
    requires Hashable(m)
    ensures TypedEntries(SliceOf(m)) && SizedEntries(SliceOf(m))
  {
    SliceOfContents(m);
    SortedListsContents(SliceOf(m));
    HashableEntries(SliceOf(m), m);
  }

  /** The bytes that the integrity hash of a map covers. */
  ghost function MapBytes(m: map<Bytes, Value>): Bytes
    requires Hashable(m)
  {
    SliceOfHashable(m);
    EncodeEntries(SliceOf(m))
  }

  /** The hash bytes of two maps agree if and only if the maps do, floats being compared by their bits. */
  lemma MapBytesInjective(m: map<Bytes, Value>, m': map<Bytes, Value>)
    requires Hashable(m) && Hashable(m')
    ensures MapBytes(m) == MapBytes(m') <==> m == m'
  {
    SliceOfContents(m);
    SliceOfContents(m');
    SliceOfHashable(m);
    SliceOfHashable(m');
    HashBytesCoverContents(SliceOf(m), SliceOf(m'));
  }

  lemma NoFaultNoPanic(ps: PropertySlice, m: map<Bytes, Value>)
    requires Lists(ps, m) && forall k :: k in m ==> EntryFault(k, m[k]).None?
    ensures forall i :: 0 <= i < |ps| ==> !TooDeep(ps[i].value, 0)
  {
    forall i | 0 <= i < |ps|
      ensures !TooDeep(ps[i].value, 0)
    {
      assert EntryFault(ps[i].key, m[ps[i].key]).None?;
    }
  }

  /**
   Builds the slice of a map and appends its hash bytes. The map's iteration order leaves no trace in
   the bytes, and a map that passes validation never makes hashing panic.
  */
  method HashMap(m: map<Bytes, Value>) returns (r: Option<Bytes>)
    requires Hashable(m)
    ensures r.Some? <==> forall k :: k in m ==> EntryFault(k, m[k]).None?
    ensures r.Some? ==> r.value == MapBytes(m)
  {
    var a := NewPropertySlice(m);
    if a.Refused? {
      return None;
    }
    SliceOfContents(m);
    SortedSliceUnique(a.ps, SliceOf(m));
    SliceOfHashable(m);
    SortedListsContents(a.ps);
    NoFaultNoPanic(a.ps, m);
    var x := AppendHashBytes([], a.ps);
    r := Some(x.bytes);
  }
}
