/**
 Byte strings: big-endian integers, the bytewise order of Go strings, and sorted enumeration of
 key sets.
*/
module ByteStrings {

  type Byte = x: int | 0 <= x < 256

  type Bytes = seq<Byte>

  // ---------- big-endian integers ----------

  function Pow256(k: nat): (p: nat)
    ensures p > 0
  {
    if k == 0 then 1 else 256 * Pow256(k - 1)
  }

  /** The k low-order bytes of n, most significant first. */
  function BE(n: nat, k: nat): (bs: Bytes)
    ensures |bs| == k
  {
    if k == 0 then [] else BE(n / 256, k - 1) + [n % 256]
  }

  function UnBE(bs: Bytes): nat {
    if bs == [] then 0 else 256 * UnBE(bs[..|bs| - 1]) + bs[|bs| - 1]
  }

  lemma {:induction false} BERoundTrip(n: nat, k: nat)
    requires n < Pow256(k)
    ensures UnBE(BE(n, k)) == n
  {
    if k > 0 {
      BERoundTrip(n / 256, k - 1);
      assert BE(n, k)[..k - 1] == BE(n / 256, k - 1);
    }
  }

  // ---------- the bytewise order ----------

  predicate Below(a: Bytes, b: Bytes) {
    b != [] && (a == [] || a[0] < b[0] || (a[0] == b[0] && Below(a[1..], b[1..])))
  }

  lemma {:induction false} BelowTotal(a: Bytes, b: Bytes)
    ensures a == b || Below(a, b) || Below(b, a)
    ensures !(Below(a, b) && Below(b, a)) && !(a == b && Below(a, b))
    decreases |a|
  {
    if a != [] && b != [] {
      BelowTotal(a[1..], b[1..]);
      assert a == [a[0]] + a[1..] && b == [b[0]] + b[1..];
    }
  }

  lemma {:induction false} BelowTransitive(a: Bytes, b: Bytes, c: Bytes)
    requires Below(a, b) && Below(b, c)
    ensures Below(a, c)
    decreases |a|
  {
    if a != [] && a[0] == b[0] && b[0] == c[0] {
      BelowTransitive(a[1..], b[1..], c[1..]);
    }
  }

  ghost predicate Ascending(ks: seq<Bytes>) {
    forall i, j :: 0 <= i < j < |ks| ==> Below(ks[i], ks[j])
  }

  /** ks lists the elements of s in ascending order. */
  ghost predicate Enumerates(ks: seq<Bytes>, s: set<Bytes>) {
    Ascending(ks) && forall k :: k in ks <==> k in s
  }

  /** A set has one ascending enumeration. */
  lemma {:induction false} EnumerationUnique(a: seq<Bytes>, b: seq<Bytes>, s: set<Bytes>)
    requires Enumerates(a, s) && Enumerates(b, s)
    ensures a == b
    decreases |a|
  {
    if a != [] || b != [] {
      var x := (a + b)[0];
      assert x in s && x in a && x in b;
      assert a[0] in b && b[0] in a;
      BelowTotal(a[0], b[0]);
      assert a[0] == b[0];
      TailEnumerates(a, s);
      TailEnumerates(b, s);
      EnumerationUnique(a[1..], b[1..], s - {a[0]});
    }
  }

  lemma TailEnumerates(a: seq<Bytes>, s: set<Bytes>)
    requires Enumerates(a, s) && a != []
    ensures Enumerates(a[1..], s - {a[0]})
  {
    forall k
      ensures k in a[1..] <==> k in s - {a[0]}
    {
      if k in a[1..] {
        var i :| 1 <= i < |a| && a[i] == k;
        BelowTotal(a[0], k);
      }
      if k in s - {a[0]} {
        var i :| 0 <= i < |a| && a[i] == k;
        assert a[1..][i - 1] == k;
      }
    }
  }

  /** Inserts k before the first greater element. */
  function Insert(ks: seq<Bytes>, k: Bytes): seq<Bytes> {
    if ks == [] || Below(k, ks[0]) then [k] + ks else [ks[0]] + Insert(ks[1..], k)
  }

  function Sort(ks: seq<Bytes>): seq<Bytes> {
    if ks == [] then [] else Insert(Sort(ks[1..]), ks[0])
  }

  lemma {:induction false} InsertMembers(ks: seq<Bytes>, k: Bytes, x: Bytes)
    ensures x in Insert(ks, k) <==> x == k || x in ks
    decreases |ks|
  {
    if ks != [] && !Below(k, ks[0]) {
      InsertMembers(ks[1..], k, x);
      assert ks == [ks[0]] + ks[1..];
    }
  }

  lemma {:induction false} InsertAscends(ks: seq<Bytes>, k: Bytes)
    requires Ascending(ks) && k !in ks
    ensures Ascending(Insert(ks, k))
    decreases |ks|
  {
    var r := Insert(ks, k);
    if ks == [] {
    } else if Below(k, ks[0]) {
      forall j | 1 <= j < |r|
        ensures Below(r[0], r[j])
      {
        assert r[j] == ks[j - 1];
        if j > 1 {
          BelowTransitive(k, ks[0], ks[j - 1]);
        }
      }
    } else {
      InsertAscends(ks[1..], k);
      BelowTotal(k, ks[0]);
      forall j | 1 <= j < |r|
        ensures Below(r[0], r[j])
      {
        assert r[j] == Insert(ks[1..], k)[j - 1];
        InsertMembers(ks[1..], k, r[j]);
      }
    }
  }

  ghost predicate NoRepeats(ks: seq<Bytes>) {
    forall i, j :: 0 <= i < j < |ks| ==> ks[i] != ks[j]
  }

  lemma {:induction false} SortEnumerates(ks: seq<Bytes>, s: set<Bytes>)
    requires NoRepeats(ks) && forall k :: k in ks <==> k in s
    ensures Enumerates(Sort(ks), s)
    decreases |ks|
  {
    if ks != [] {
      var t := s - {ks[0]};
      assert forall k :: k in ks <==> k == ks[0] || k in ks[1..];
      SortEnumerates(ks[1..], t);
      InsertAscends(Sort(ks[1..]), ks[0]);
      forall k
        ensures k in Sort(ks) <==> k in s
      {
        InsertMembers(Sort(ks[1..]), ks[0], k);
      }
    }
  }

  lemma SetHasEnumeration(s: set<Bytes>)
    ensures exists ks :: Enumerates(ks, s)
  {
    var ks: seq<Bytes> := [];
    var rest := s;
    while rest != {}
      invariant NoRepeats(ks) && rest <= s && forall k :: k in ks <==> k in s && k !in rest
    {
      var k :| k in rest;
      ks, rest := ks + [k], rest - {k};
    }
    SortEnumerates(ks, s);
  }

  /** The ascending enumeration of a set. */
  ghost function Sorted(s: set<Bytes>): (ks: seq<Bytes>)
    ensures Enumerates(ks, s)
  {
    SetHasEnumeration(s);
    var ks :| Enumerates(ks, s);
    ks
  }

  /** Collects a map's keys in whatever order the iteration yields them, then sorts them. */
  method CollectSorted(s: set<Bytes>) returns (ks: seq<Bytes>)
    ensures ks == Sorted(s)
  {
    ks := [];
    var rest := s;
    while rest != {}
      invariant NoRepeats(ks) && rest <= s && forall k :: k in ks <==> k in s && k !in rest
    {
      var k :| k in rest;
      ks, rest := ks + [k], rest - {k};
    }
    SortEnumerates(ks, s);
    ks := Sort(ks);
    EnumerationUnique(ks, Sorted(s), s);
  }
}
