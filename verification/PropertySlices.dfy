/**
 Property slices: entries in ascending key order, the finite maps they stand for, and the two ways of
 building one from caller input.
*/
module PropertySlices {
  import opened Options
  import opened ByteStrings
  import opened PropertyEncoding

  datatype Property = Property(key: Bytes, value: Value)

  type PropertySlice = seq<Property>

  ghost predicate SortedByKey(ps: PropertySlice) {
    forall i, j :: 0 <= i < j < |ps| ==> Below(ps[i].key, ps[j].key)
  }

  /** What setting the entries from left to right leaves: the last entry of a key wins. */
  function Contents(ps: PropertySlice): map<Bytes, Value> {
    if ps == [] then map[] else
    var last := ps[|ps| - 1];
    Contents(ps[..|ps| - 1])[last.key := last.value]
  }

  // ---------- sorted slices and maps ----------

  /** ps lists exactly the bindings of m. */
  ghost predicate Lists(ps: PropertySlice, m: map<Bytes, Value>) {
    && (forall i :: 0 <= i < |ps| ==> ps[i].key in m && m[ps[i].key] == ps[i].value)
    && (forall k :: k in m ==> exists i :: 0 <= i < |ps| && ps[i].key == k)
  }

  lemma {:induction false} SortedListsContents(ps: PropertySlice)
    requires SortedByKey(ps)
    ensures Lists(ps, Contents(ps))
    decreases |ps|
  {
    if ps != [] {
      var front, last := ps[..|ps| - 1], ps[|ps| - 1];
      SortedListsContents(front);
      forall i | 0 <= i < |ps|
        ensures ps[i].key in Contents(ps) && Contents(ps)[ps[i].key] == ps[i].value
      {
        if i < |front| {
          assert front[i] == ps[i];
          BelowTotal(ps[i].key, last.key);
        }
      }
      forall k | k in Contents(ps)
        ensures exists i :: 0 <= i < |ps| && ps[i].key == k
      {
        if k != last.key {
          var i :| 0 <= i < |front| && front[i].key == k;
          assert ps[i].key == k;
        }
      }
    }
  }

  /** A sorted slice that lists a map has that map as its contents. */
  lemma ListedIsContents(ps: PropertySlice, m: map<Bytes, Value>)
    requires SortedByKey(ps) && Lists(ps, m)
    ensures Contents(ps) == m
  {
    SortedListsContents(ps);
    assert Contents(ps).Keys == m.Keys;
  }

  /** A map has one sorted slice. */
  lemma {:induction false} SortedSliceUnique(ps: PropertySlice, qs: PropertySlice)
    requires SortedByKey(ps) && SortedByKey(qs)
    ensures ps == qs <==> Contents(ps) == Contents(qs)
  {
    if Contents(ps) == Contents(qs) {
      var m := Contents(ps);
      SortedListsContents(ps);
      SortedListsContents(qs);
      KeysEnumerate(ps, m);
      KeysEnumerate(qs, m);
      EnumerationUnique(Keys(ps), Keys(qs), m.Keys);
      assert |Keys(ps)| == |ps| && |Keys(qs)| == |qs|;
      forall i | 0 <= i < |ps|
        ensures ps[i] == qs[i]
      {
        assert Keys(ps)[i] == Keys(qs)[i];
      }
    }
  }

  function Keys(ps: PropertySlice): seq<Bytes> { seq(|ps|, i requires 0 <= i < |ps| => ps[i].key) }

  lemma KeysEnumerate(ps: PropertySlice, m: map<Bytes, Value>)
    requires SortedByKey(ps) && Lists(ps, m)
    ensures Enumerates(Keys(ps), m.Keys)
  {
    var ks := Keys(ps);
    forall k
      ensures k in ks <==> k in m.Keys
    {
      if k in m {
        var i :| 0 <= i < |ps| && ps[i].key == k;
        assert ks[i] == k;
      }
    }
  }

  // ---------- single updates ----------

  /** i is where key belongs: every earlier key is below it and no later one is. */
  ghost predicate Position(ps: PropertySlice, i: nat, key: Bytes) {
    && i <= |ps|
    && (forall j :: 0 <= j < i ==> Below(ps[j].key, key))
    && (forall j :: i <= j < |ps| ==> !Below(ps[j].key, key))
  }

  predicate FoundAt(ps: PropertySlice, i: nat, key: Bytes) { i < |ps| && ps[i].key == key }

  lemma ListedAtPosition(ps: PropertySlice, i: nat, key: Bytes, m: map<Bytes, Value>)
    requires SortedByKey(ps) && Position(ps, i, key) && Lists(ps, m)
    ensures FoundAt(ps, i, key) <==> key in m
  {
    if key in m {
      var j :| 0 <= j < |ps| && ps[j].key == key;
      BelowTotal(key, key);
    }
  }

  /** Looking the key up at its position is looking it up in the map. */
  lemma LookupAtPosition(ps: PropertySlice, i: nat, key: Bytes)
    requires SortedByKey(ps) && Position(ps, i, key)
    ensures FoundAt(ps, i, key) <==> key in Contents(ps)
    ensures FoundAt(ps, i, key) ==> Contents(ps)[key] == ps[i].value
  {
    SortedListsContents(ps);
    ListedAtPosition(ps, i, key, Contents(ps));
  }

  function Inserted(ps: PropertySlice, i: nat, p: Property): PropertySlice
    requires i <= |ps|
  {
    ps[..i] + [p] + ps[i..]
  }

  lemma InsertedSorted(ps: PropertySlice, i: nat, p: Property)
    requires SortedByKey(ps) && Position(ps, i, p.key) && !FoundAt(ps, i, p.key)
    ensures SortedByKey(Inserted(ps, i, p))
  {
    var qs := Inserted(ps, i, p);
    forall a, b | 0 <= a < b < |qs|
      ensures Below(qs[a].key, qs[b].key)
    {
      if a == i {
        BelowTotal(p.key, ps[i].key);
        if b > i + 1 {
          BelowTransitive(p.key, ps[i].key, ps[b - 1].key);
        }
      }
    }
  }

  lemma InsertedLists(ps: PropertySlice, i: nat, p: Property, m: map<Bytes, Value>)
    requires i <= |ps| && Lists(ps, m) && p.key !in m
    ensures Lists(Inserted(ps, i, p), m[p.key := p.value])
  {
    var qs, m' := Inserted(ps, i, p), m[p.key := p.value];
    forall k | k in m'
      ensures exists j :: 0 <= j < |qs| && qs[j].key == k
    {
      if k == p.key {
        assert qs[i].key == k;
      } else {
        var j :| 0 <= j < |ps| && ps[j].key == k;
        assert qs[if j < i then j else j + 1].key == k;
      }
    }
  }

  /** Inserting at the key's position binds the key in the map. */
  lemma InsertedContents(ps: PropertySlice, i: nat, p: Property)
    requires SortedByKey(ps) && Position(ps, i, p.key) && !FoundAt(ps, i, p.key)
    ensures Contents(Inserted(ps, i, p)) == Contents(ps)[p.key := p.value]
  {
    InsertedSorted(ps, i, p);
    SortedListsContents(ps);
    LookupAtPosition(ps, i, p.key);
    InsertedLists(ps, i, p, Contents(ps));
    ListedIsContents(Inserted(ps, i, p), Contents(ps)[p.key := p.value]);
  }

  function Overwritten(ps: PropertySlice, i: nat, value: Value): PropertySlice
    requires i < |ps|
  {
    ps[i := Property(ps[i].key, value)]
  }

  lemma OverwrittenLists(ps: PropertySlice, i: nat, value: Value, m: map<Bytes, Value>)
    requires SortedByKey(ps) && i < |ps| && Lists(ps, m)
    ensures SortedByKey(Overwritten(ps, i, value)) && Lists(Overwritten(ps, i, value), m[ps[i].key := value])
  {
    var qs, m' := Overwritten(ps, i, value), m[ps[i].key := value];
    assert forall j :: 0 <= j < |ps| ==> qs[j].key == ps[j].key;
    forall j | 0 <= j < |qs| && j != i
      ensures qs[j].key != ps[i].key
    {
      BelowTotal(ps[i].key, ps[j].key);
    }
    forall k | k in m'
      ensures exists j :: 0 <= j < |qs| && qs[j].key == k
    {
      var j :| 0 <= j < |ps| && ps[j].key == k;
      assert qs[j].key == k;
    }
  }

  /** Overwriting the value at an index rebinds its key in the map. */
  lemma OverwrittenContents(ps: PropertySlice, i: nat, value: Value)
    requires SortedByKey(ps) && i < |ps|
    ensures SortedByKey(Overwritten(ps, i, value))
        && Contents(Overwritten(ps, i, value)) == Contents(ps)[ps[i].key := value]
  {
    SortedListsContents(ps);
    OverwrittenLists(ps, i, value, Contents(ps));
    ListedIsContents(Overwritten(ps, i, value), Contents(ps)[ps[i].key := value]);
  }

  function Removed(ps: PropertySlice, i: nat): PropertySlice
    requires i < |ps|
  {
    ps[..i] + ps[i + 1..]
  }

  lemma RemovedSorted(ps: PropertySlice, i: nat)
    requires SortedByKey(ps) && i < |ps|
    ensures SortedByKey(Removed(ps, i))
  {
  }

  lemma RemovedAt(ps: PropertySlice, i: nat, j: nat, m: map<Bytes, Value>)
    requires SortedByKey(ps) && i < |ps| && j < |ps| - 1 && Lists(ps, m)
    ensures Removed(ps, i)[j].key in m && m[Removed(ps, i)[j].key] == Removed(ps, i)[j].value
    ensures Removed(ps, i)[j].key != ps[i].key
  {
    var s := if j < i then j else j + 1;
    assert Removed(ps, i)[j] == ps[s];
    BelowTotal(ps[i].key, ps[s].key);
  }

  lemma RemovedLists(ps: PropertySlice, i: nat, m: map<Bytes, Value>)
    requires SortedByKey(ps) && i < |ps| && Lists(ps, m)
    ensures Lists(Removed(ps, i), m - {ps[i].key})
  {
    var qs, m' := Removed(ps, i), m - {ps[i].key};
    forall j | 0 <= j < |qs|
      ensures qs[j].key in m' && m'[qs[j].key] == qs[j].value
    {
      RemovedAt(ps, i, j, m);
    }
    forall k | k in m'
      ensures exists j :: 0 <= j < |qs| && qs[j].key == k
    {
      var j :| 0 <= j < |ps| && ps[j].key == k;
      assert qs[if j < i then j else j - 1].key == k;
    }
  }

  /** Removing an index unbinds its key in the map. */
  lemma RemovedContents(ps: PropertySlice, i: nat)
    requires SortedByKey(ps) && i < |ps|
    ensures SortedByKey(Removed(ps, i)) && Contents(Removed(ps, i)) == Contents(ps) - {ps[i].key}
  {
    SortedListsContents(ps);
    RemovedSorted(ps, i);
    RemovedLists(ps, i, Contents(ps));
    ListedIsContents(Removed(ps, i), Contents(ps) - {ps[i].key});
  }

  // ---------- validation ----------

  datatype Fault = EmptyKey | ReservedKey | BadValue

  function KeyFault(key: Bytes): Option<Fault> {
    if key == [] then Some(EmptyKey)
    else if |key| >= 4 && key[..4] == [116, 107, 103, 95] then Some(ReservedKey) // "tkg_"
    else None
  }

  /** Exactly the empty key and the keys that start with "tkg_" are refused. */
  lemma RefusedKeys(key: Bytes)
    ensures KeyFault(key) == Some(EmptyKey) <==> |key| == 0
    ensures KeyFault(key) == Some(ReservedKey) <==>
            |key| >= 4 && key[0] == 't' as int && key[1] == 'k' as int && key[2] == 'g' as int && key[3] == '_' as int
    ensures KeyFault(key) != Some(BadValue)
  {
    if |key| >= 4 {
      assert key[..4] == [key[0], key[1], key[2], key[3]];
    }
  }

  /** w is an element or an entry of v. */
  ghost predicate DirectlyIn(w: Value, v: Value) {
    || (v.Any? && exists i :: 0 <= i < |v.vs| && v.vs[i] == w)
    || (v.MapAny? && exists k :: k in v.m && v.m[k] == w)
  }

  /** Each value of the chain is an element or an entry of the one before. */
  ghost predicate Chain(chain: seq<Value>) {
    |chain| > 0 && forall i :: 0 < i < |chain| ==> DirectlyIn(chain[i], chain[i - 1])
  }

  lemma {:induction false} DeepChain(v: Value, depth: nat) returns (chain: seq<Value>)
    requires TooDeep(v, depth) && depth <= 33
    ensures Chain(chain) && chain[0] == v && |chain| == 34 - depth
    decreases v
  {
    if depth == 33 {
      chain := [v];
    } else if v.Any? {
      var i :| 0 <= i < |v.vs| && TooDeep(v.vs[i], depth + 1);
      var rest := DeepChain(v.vs[i], depth + 1);
      chain := [v] + rest;
    } else {
      var k :| k in v.m && TooDeep(v.m[k], depth + 1);
      var rest := DeepChain(v.m[k], depth + 1);
      chain := [v] + rest;
    }
  }

  lemma {:induction false} ChainIsDeep(chain: seq<Value>, depth: nat)
    requires Chain(chain) && depth + |chain| > 33
    ensures TooDeep(chain[0], depth)
    decreases |chain|
  {
    if |chain| > 1 && depth <= 32 {
      var rest := chain[1..];
      assert Chain(rest) by {
        forall i | 0 < i < |rest|
          ensures DirectlyIn(rest[i], rest[i - 1])
        {
          assert DirectlyIn(chain[i + 1], chain[i]);
        }
      }
      ChainIsDeep(rest, depth + 1);
      assert DirectlyIn(chain[1], chain[0]);
    }
  }

  /** A value is refused if and only if 33 of its lists and maps lie inside one another, around a further value. */
  lemma RefusedValues(v: Value)
    ensures TooDeep(v, 0) <==> exists chain :: Chain(chain) && chain[0] == v && |chain| == 34
  {
    if TooDeep(v, 0) {
      var chain := DeepChain(v, 0);
    }
    if chain :| Chain(chain) && chain[0] == v && |chain| == 34 {
      ChainIsDeep(chain, 0);
    }
  }

  ghost predicate Acceptable(v: Value) { !TooDeep(v, 0) }

  /** An entry is refused for its key first and then for its value. */
  lemma RefusedEntries(key: Bytes, v: Value)
    ensures EntryFault(key, v).None? <==> KeyFault(key).None? && !TooDeep(v, 0)
    ensures KeyFault(key).Some? ==> EntryFault(key, v) == KeyFault(key)
    ensures KeyFault(key).None? && TooDeep(v, 0) ==> EntryFault(key, v) == Some(BadValue)
  {
  }

  /** Why an entry is refused, if it is. */
  ghost function EntryFault(key: Bytes, v: Value): Option<Fault> {
    if KeyFault(key).Some? then KeyFault(key) else if Acceptable(v) then None else Some(BadValue)
  }

  /** Walks the nested values, stopping at the first one too deep. */
  method Validate(v: Value, depth: nat) returns (ok: bool)
    ensures ok <==> !TooDeep(v, depth)
    decreases v
  {
    if depth > MAX_DEPTH {
      return false;
    }
    if v.Any? {
      for i := 0 to |v.vs|
        invariant forall j :: 0 <= j < i ==> !TooDeep(v.vs[j], depth + 1)
      {
        ok := Validate(v.vs[i], depth + 1);
        if !ok {
          return;
        }
      }
    } else if v.MapAny? {
      var rest := v.m.Keys;
      while rest != {}
        invariant rest <= v.m.Keys && forall k :: k in v.m && k !in rest ==> !TooDeep(v.m[k], depth + 1)
      {
        var k :| k in rest;
        ok := Validate(v.m[k], depth + 1);
        if !ok {
          return;
        }
        rest := rest - {k};
      }
    }
    ok := true;
  }

  // ---------- building slices ----------

  datatype Built = Built(ps: PropertySlice) | Refused(fault: Fault)

  /** The index of the first entry whose key is not below the given one. */
  method SearchKey(ps: PropertySlice, key: Bytes) returns (lo: nat)
    requires SortedByKey(ps)
    ensures Position(ps, lo, key)
  {
    lo := 0;
    var hi := |ps|;
    while lo < hi
      invariant lo <= hi <= |ps|
      invariant forall j :: 0 <= j < lo ==> Below(ps[j].key, key)
      invariant forall j :: hi <= j < |ps| ==> !Below(ps[j].key, key)
    {
      var mid := (lo + hi) / 2;
      if Below(ps[mid].key, key) {
        BelowEarlier(ps, mid, key);
        lo := mid + 1;
      } else {
        NotBelowLater(ps, mid, key);
        hi := mid;
      }
    }
  }

  lemma BelowEarlier(ps: PropertySlice, mid: nat, key: Bytes)
    requires SortedByKey(ps) && mid < |ps| && Below(ps[mid].key, key)
    ensures forall j :: 0 <= j <= mid ==> Below(ps[j].key, key)
  {
    forall j | 0 <= j < mid
      ensures Below(ps[j].key, key)
    {
      BelowTransitive(ps[j].key, ps[mid].key, key);
    }
  }

  lemma NotBelowLater(ps: PropertySlice, mid: nat, key: Bytes)
    requires SortedByKey(ps) && mid < |ps| && !Below(ps[mid].key, key)
    ensures forall j :: mid <= j < |ps| ==> !Below(ps[j].key, key)
  {
    forall j | mid < j < |ps|
      ensures !Below(ps[j].key, key)
    {
      if Below(ps[j].key, key) {
        BelowTransitive(ps[mid].key, ps[j].key, key);
      }
    }
  }

  /** Setting one entry of a slice held as a value. */
  method Put(ps: PropertySlice, p: Property) returns (qs: PropertySlice)
    requires SortedByKey(ps)
    ensures SortedByKey(qs) && Contents(qs) == Contents(ps)[p.key := p.value]
  {
    var i := SearchKey(ps, p.key);
    if i < |ps| && ps[i].key == p.key {
      qs := Overwritten(ps, i, p.value);
      OverwrittenContents(ps, i, p.value);
    } else {
      qs := Inserted(ps, i, p);
      InsertedSorted(ps, i, p);
      InsertedContents(ps, i, p);
    }
  }

  /** Sorts entries whose keys differ. */
  method SortByKey(ps: PropertySlice) returns (qs: PropertySlice)
    ensures SortedByKey(qs) && Contents(qs) == Contents(ps)
  {
    qs := [];
    for i := 0 to |ps|
      invariant SortedByKey(qs) && Contents(qs) == Contents(ps[..i])
    {
      assert ps[..i + 1][..i] == ps[..i];
      qs := Put(qs, ps[i]);
    }
    assert ps[..|ps|] == ps;
  }

  /**
   Builds a slice from a map, whatever order the map's keys are met in. Success and its result do not
   depend on that order; among several faulty entries the order decides which fault is reported.
  */
  method NewPropertySlice(m: map<Bytes, Value>) returns (r: Built)
    ensures r.Built? <==> forall k :: k in m ==> EntryFault(k, m[k]).None?
    ensures r.Built? ==> SortedByKey(r.ps) && Contents(r.ps) == m
    ensures r.Refused? ==> exists k :: k in m && EntryFault(k, m[k]) == Some(r.fault)
  {
    var ps, rest := [], m.Keys;
    while rest != {}
      invariant rest <= m.Keys && Contents(ps) == m - rest
      invariant forall k :: k in m && k !in rest ==> EntryFault(k, m[k]).None?
    {
      var k :| k in rest;
      var f := KeyFault(k);
      if f.Some? {
        assert EntryFault(k, m[k]) == f;
        return Refused(f.value);
      }
      var ok := Validate(m[k], 0);
      if !ok {
        assert EntryFault(k, m[k]) == Some(BadValue);
        return Refused(BadValue);
      }
      var p := Property(k, m[k]);
      assert (ps + [p])[..|ps|] == ps;
      ps, rest := ps + [p], rest - {k};
    }
    ps := SortByKey(ps);
    r := Built(ps);
  }

  /** The keys are fine, and so is the last value of each key. */
  ghost predicate CanonicalAccepts(ps: PropertySlice) {
    && (forall i :: 0 <= i < |ps| ==> KeyFault(ps[i].key).None?)
    && (forall k :: k in Contents(ps) ==> Acceptable(Contents(ps)[k]))
  }

  /** Appends the entries of the listed keys, or stops at the first unacceptable value. */
  method CopyEntries(m: map<Bytes, Value>, ks: seq<Bytes>) returns (r: Option<PropertySlice>)
    requires Ascending(ks) && forall k :: k in ks <==> k in m
    ensures r.Some? <==> forall k :: k in m ==> Acceptable(m[k])
    ensures r.Some? ==> SortedByKey(r.value) && Contents(r.value) == m
  {
    var out: PropertySlice := [];
    for i := 0 to |ks|
      invariant |out| == i && forall j :: 0 <= j < i ==> out[j] == Property(ks[j], m[ks[j]])
      invariant forall j :: 0 <= j < i ==> Acceptable(m[ks[j]])
    {
      var k := ks[i];
      var ok := Validate(m[k], 0);
      if !ok {
        return None;
      }
      out := out + [Property(k, m[k])];
    }
    forall k | k in m
      ensures exists j :: 0 <= j < |out| && out[j].key == k
    {
      assert k in ks;
      var j :| 0 <= j < |ks| && ks[j] == k;
      assert out[j].key == k;
    }
    ListedIsContents(out, m);
    r := Some(out);
  }

  /**
   Canonicalises caller-provided entries: already sorted ones are copied, others go through a map of
   the latest value per key. Both paths yield what setting the entries from left to right yields.
  */
  method CanonicalPropertySlice(ps: PropertySlice) returns (r: Built)
    ensures r.Built? <==> CanonicalAccepts(ps)
    ensures r.Built? ==> SortedByKey(r.ps) && Contents(r.ps) == Contents(ps)
    ensures r.Refused? && r.fault != BadValue ==> exists i :: 0 <= i < |ps| && KeyFault(ps[i].key) == Some(r.fault)
    ensures r == Refused(BadValue) ==> forall i :: 0 <= i < |ps| ==> KeyFault(ps[i].key).None?
  {
    if ps == [] {
      return Built([]);
    }
    var sortedUnique := true;
    for i := 0 to |ps|
      invariant forall j :: 0 <= j < i ==> KeyFault(ps[j].key).None?
      invariant sortedUnique ==> SortedByKey(ps[..i])
    {
      var f := KeyFault(ps[i].key);
      if f.Some? {
        return Refused(f.value);
      }
      if i > 0 && !Below(ps[i - 1].key, ps[i].key) {
        sortedUnique := false;
      }
      if sortedUnique {
        ExtendsSorted(ps, i);
      }
    }
    assert ps[..|ps|] == ps;
    if sortedUnique {
      SortedListsContents(ps);
      KeysEnumerate(ps, Contents(ps));
      var copied := CopyEntries(Contents(ps), Keys(ps));
      return if copied.Some? then Built(copied.value) else Refused(BadValue);
    }
    var latest: map<Bytes, Value> := map[];
    for i := 0 to |ps|
      invariant latest == Contents(ps[..i])
    {
      assert ps[..i + 1][..i] == ps[..i];
      latest := latest[ps[i].key := ps[i].value];
    }
    var keys := CollectSorted(latest.Keys);
    var copied := CopyEntries(latest, keys);
    r := if copied.Some? then Built(copied.value) else Refused(BadValue);
  }

  lemma ExtendsSorted(ps: PropertySlice, i: nat)
    requires i < |ps| && SortedByKey(ps[..i]) && (i > 0 ==> Below(ps[i - 1].key, ps[i].key))
    ensures SortedByKey(ps[..i + 1])
  {
    forall a, b | 0 <= a < b <= i
      ensures Below(ps[a].key, ps[b].key)
    {
      if b < i {
        assert ps[..i][a] == ps[a] && ps[..i][b] == ps[b];
      } else if a < i - 1 {
        assert ps[..i][a] == ps[a] && ps[..i][i - 1] == ps[i - 1];
        BelowTransitive(ps[a].key, ps[i - 1].key, ps[i].key);
      }
    }
  }

  /** Every entry is fine, as setting them one by one demands. */
  ghost predicate EveryEntryFine(ps: PropertySlice) {
    forall i :: 0 <= i < |ps| ==> EntryFault(ps[i].key, ps[i].value).None?
  }

  /** i is the last entry of its key. */
  ghost predicate IsLast(ps: PropertySlice, i: int) {
    0 <= i < |ps| && forall j :: i < j < |ps| ==> ps[j].key != ps[i].key
  }

  lemma {:induction false} LastEntryIsContent(ps: PropertySlice, i: nat)
    requires IsLast(ps, i)
    ensures ps[i].key in Contents(ps) && Contents(ps)[ps[i].key] == ps[i].value
    decreases |ps|
  {
    var n := |ps| - 1;
    if i < n {
      LastEntryIsContent(ps[..n], i);
    }
  }

  lemma {:induction false} ContentHasLastEntry(ps: PropertySlice, k: Bytes) returns (i: nat)
    requires k in Contents(ps)
    ensures IsLast(ps, i) && ps[i].key == k
    decreases |ps|
  {
    i := |ps| - 1;
    if ps[i].key != k {
      i := ContentHasLastEntry(ps[..i], k);
    }
  }

  /**
   Canonicalising accepts more than setting the entries one by one: exactly the inputs whose keys are
   all fine and whose unacceptable values are each overwritten by a later entry of the same key.
  */
  lemma CanonicalAcceptsIff(ps: PropertySlice)
    ensures CanonicalAccepts(ps) <==> forall i :: 0 <= i < |ps| ==> KeyFault(ps[i].key).None? && (IsLast(ps, i) ==>
        Acceptable(ps[i].value))
    ensures EveryEntryFine(ps) ==> CanonicalAccepts(ps)
  {
    forall i | IsLast(ps, i)
      ensures ps[i].key in Contents(ps) && Contents(ps)[ps[i].key] == ps[i].value
    {
      LastEntryIsContent(ps, i);
    }
    forall k | k in Contents(ps)
      ensures exists i :: IsLast(ps, i) && ps[i].key == k
    {
      var i := ContentHasLastEntry(ps, k);
    }
  }

  /** A value nested n levels deep. */
  function Nest(n: nat): Value { if n == 0 then Nil else Any([Nest(n - 1)]) }

  lemma {:induction false} NestTooDeep(n: nat, depth: nat)
    ensures TooDeep(Nest(n), depth) <==> n + depth > MAX_DEPTH
    decreases n
  {
    if n > 0 {
      NestTooDeep(n - 1, depth + 1);
      assert Nest(n).vs[0] == Nest(n - 1);
    }
  }

  /** Inputs that canonicalising accepts and that setting entry by entry refuses. */
  lemma OverwrittenFaultAccepted(n: nat, key: Bytes)
    requires n > MAX_DEPTH && KeyFault(key).None?
    ensures var ps := [Property(key, Nest(n)), Property(key, Nil)]; CanonicalAccepts(ps) && !EveryEntryFine(ps)
  {
    var ps := [Property(key, Nest(n)), Property(key, Nil)];
    NestTooDeep(n, 0);
    assert EntryFault(ps[0].key, ps[0].value) == Some(BadValue);
    assert !IsLast(ps, 0) by {
      assert ps[1].key == ps[0].key;
    }
    CanonicalAcceptsIff(ps);
  }
}
