/**
 The index keys of a list property: each distinct element key is reported once, in order of first
 occurrence, although the duplicate check switches from a short list to a map on the way.
*/
module ElementKeys {
  import opened Numbers
  import opened IndexKeys

  const LINEAR: nat := 16

  /** The distinct non-empty keys in order of first occurrence. */
  function Distinct(keys: seq<string>): seq<string> {
    if keys == [] then []
    else
      var before, k := Distinct(keys[..|keys| - 1]), keys[|keys| - 1];
      if k == "" || k in before then before else before + [k]
  }

  lemma DistinctSnoc(keys: seq<string>, k: string)
    ensures Distinct(keys + [k]) == if k == "" || k in Distinct(keys) then Distinct(keys) else Distinct(keys) + [k]
  {
    assert (keys + [k])[..|keys|] == keys;
  }

  lemma {:induction false} DistinctMembers(keys: seq<string>, k: string)
    ensures k in Distinct(keys) <==> k in keys && k != ""
    decreases |keys|
  {
    if keys != [] {
      var n := |keys| - 1;
      DistinctMembers(keys[..n], k);
      assert keys == keys[..n] + [keys[n]];
    }
  }

  /** Each key is reported once, at its first occurrence. */
  lemma {:induction false} DistinctOrder(keys: seq<string>, a: nat, b: nat)
    requires a < b < |Distinct(keys)|
    ensures Distinct(keys)[a] != Distinct(keys)[b]
    ensures exists i :: 0 <= i < |keys| && keys[i] == Distinct(keys)[a] && Distinct(keys)[b] !in keys[..i + 1]
    decreases |keys|
  {
    var n := |keys| - 1;
    var front := keys[..n];
    assert keys == front + [keys[n]];
    if b < |Distinct(front)| {
      DistinctOrder(front, a, b);
      var i :| 0 <= i < |front| && front[i] == Distinct(front)[a] && Distinct(front)[b] !in front[..i + 1];
      assert keys[i] == front[i] && keys[..i + 1] == front[..i + 1];
    } else {
      var k := Distinct(front)[a];
      DistinctMembers(front, k);
      DistinctMembers(front, keys[n]);
      var i :| 0 <= i < |front| && front[i] == k;
      assert keys[i] == k && keys[..i + 1] == front[..i + 1];
      assert forall x :: x in front[..i + 1] ==> x in front;
    }
  }

  /**
   Reports each distinct key to the visitor until it declines one; the empty key of an element without one is
   skipped.
  */
  method ForEachElementKey(keys: seq<string>, accepts: string -> bool) returns (reported: seq<string>, finished: bool)
    ensures finished <==> forall k :: k in keys && k != "" ==> accepts(k)
    ensures reported <= Distinct(keys) && (finished ==> reported == Distinct(keys))
    ensures !finished ==> reported != [] && !accepts(reported[|reported| - 1])
    ensures forall i :: 0 <= i < |reported| - 1 ==> accepts(reported[i])
  {
    var seen: seq<string>, many: map<string, ()>, usesMap := [], map[], false;
    reported := [];
    for i := 0 to |keys|
      invariant reported == Distinct(keys[..i]) && forall k :: k in reported ==> accepts(k)
      invariant if usesMap then forall k :: k in many <==> k in reported else seen == reported && |seen| <= LINEAR
    {
      var k := keys[i];
      assert keys[..i + 1] == keys[..i] + [k];
      DistinctSnoc(keys[..i], k);
      if k == "" || (if usesMap then k in many else k in seen) {
        continue;
      }
      if usesMap {
        many := many[k := ()];
      } else if |seen| < LINEAR {
        seen := seen + [k];
      } else {
        usesMap, many := true, map x | x in seen + [k] :: ();
      }
      reported := reported + [k];
      if !accepts(k) {
        DistinctPrefix(keys, i + 1);
        DistinctMembers(keys[..i + 1], k);
        return reported, false;
      }
    }
    assert keys[..|keys|] == keys;
    AllAccepted(keys, accepts);
    finished := true;
  }

  lemma AllAccepted(keys: seq<string>, accepts: string -> bool)
    requires forall k :: k in Distinct(keys) ==> accepts(k)
    ensures forall k :: k in keys && k != "" ==> accepts(k)
  {
    forall k | k in keys && k != ""
      ensures accepts(k)
    {
      DistinctMembers(keys, k);
    }
  }

  lemma {:induction false} DistinctPrefix(keys: seq<string>, i: nat)
    requires i <= |keys|
    ensures Distinct(keys[..i]) <= Distinct(keys)
    decreases |keys|
  {
    if i < |keys| {
      DistinctPrefix(keys[..|keys| - 1], i);
      assert keys[..|keys| - 1][..i] == keys[..i];
    } else {
      assert keys[..i] == keys;
    }
  }

  /** A property value as an elements index sees it: one value, or a list of an indexable list type. */
  datatype Indexed = Single(v: Value) | List(values: seq<Value>)

  function ScalarKey(r: Renderer, x: Indexed): string { if x.Single? then Key(r, x.v) else "" }

  /** A value carries a key: as its own scalar key or, with elements, as the key of one of its elements. */
  ghost predicate Carries(r: Renderer, x: Indexed, elements: bool, target: string) {
    && target != ""
    && (|| ScalarKey(r, x) == target
        || (elements && x.List? && exists i :: 0 <= i < |x.values| && Key(r, x.values[i]) == target))
  }

  lemma KeyListed(r: Renderer, values: seq<Value>, keys: seq<string>, target: string)
    requires keys == KeysOf(r, values)
    ensures target in keys <==> exists i :: 0 <= i < |values| && Key(r, values[i]) == target
  {
    if target in keys {
      var i :| 0 <= i < |keys| && keys[i] == target;
      assert Key(r, values[i]) == target;
    }
    if i :| 0 <= i < |values| && Key(r, values[i]) == target {
      assert keys[i] == target;
    }
  }

  method HasKey(r: Renderer, x: Indexed, elements: bool, target: string) returns (found: bool)
    ensures found <==> Carries(r, x, elements, target)
  {
    if target == "" {
      return false;
    }
    var key := ScalarKey(r, x);
    if key != "" || !elements {
      return key == target;
    }
    found := false;
    if x.List? {
      var keys := ListKeys(r, x.values);
      var reported, finished := ForEachElementKey(keys, k => k != target);
      found := !finished;
      KeyListed(r, x.values, keys, target);
    }
  }

  /** A list carries the key of a number exactly if it holds a number that equals it in value and width. */
  lemma ListCarriesNumber(r: Renderer, values: seq<Value>, v: Value)
    requires Faithful(r) && Legal(v) && IsNumber(v) && forall i :: 0 <= i < |values| ==> Legal(values[i])
    ensures Carries(r, List(values), true, Key(r, v)) <==> v in values
  {
    forall i | 0 <= i < |values|
      ensures Key(r, values[i]) == Key(r, v) <==> values[i] == v
    {
      SameKeySameNumber(r, values[i], v);
    }
  }

  lemma SameKeySameNumber(r: Renderer, x: Value, v: Value)
    requires Faithful(r) && Legal(x) && Legal(v) && IsNumber(v)
    ensures Key(r, x) == Key(r, v) <==> x == v
  {
    if IsNumber(x) {
      NumberKeysInjective(r, x, v);
    } else if !x.Nil? && !x.Composite? {
      KeyParts(r, x, v);
      OtherPrefix(x, v);
    }
  }
}
