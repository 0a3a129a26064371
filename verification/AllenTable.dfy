/**
 Relation sets as 16-bit masks, the composition table and the operations over it. The mask
 operations refine finite sets; the table built from the seven-point timeline refines composition
 over all integers.
*/
module AllenTable {
  import opened Allen

  // ---------- relation sets ----------

  const MASK: bv16 := 0x1FFF

  /** The singleton mask of r; empty for an invalid relation. */
  function Bit(r: Relation): bv16 {
    if r == 1 then 0x0001 else if r == 2 then 0x0002 else if r == 3 then 0x0004 else if r == 4 then 0x0008
    else if r == 5 then 0x0010 else if r == 6 then 0x0020 else if r == 7 then 0x0040 else if r == 8 then 0x0080
    else if r == 9 then 0x0100 else if r == 10 then 0x0200 else if r == 11 then 0x0400 else if r == 12 then 0x0800
    else if r == 13 then 0x1000 else 0
  }

  predicate Has(s: bv16, r: Relation) {
    Valid(r) && s & Bit(r) != 0
  }

  function Add(s: bv16, r: Relation): bv16 { (s | Bit(r)) & MASK }

  function Union(s: bv16, t: bv16): bv16 { (s | t) & MASK }

  /** The relations a mask stands for. */
  ghost function Members(s: bv16): set<Relation> {
    set r: Relation | 0 <= r < 256 && Has(s, r)
  }

  /** No bit beyond the thirteen is set. */
  predicate Clean(s: bv16) { s & 0xE000 == 0 }

  // Facts about 16-bit words alone.

  /** Adding and uniting clear the bits beyond the thirteen. */
  lemma ResultsAreClean(s: bv16, t: bv16, r: Relation)
    ensures Clean(Add(s, r)) && Clean(Union(s, t)) && Clean(0)
  {
    MaskedIsClean(s | Bit(r));
    MaskedIsClean(s | t);
  }

  lemma MaskedIsClean(s: bv16)
    ensures (s & 0x1FFF) & 0xE000 == 0
  {
  }

  predicate Agree(s: bv16, t: bv16, m: bv16) { s & m != 0 <==> t & m != 0 }

  lemma SameBits(s: bv16, t: bv16)
    requires Clean(s) && Clean(t)
    requires Agree(s, t, 0x1) && Agree(s, t, 0x2) && Agree(s, t, 0x4) && Agree(s, t, 0x8) && Agree(s, t, 0x10)
    requires Agree(s, t, 0x20) && Agree(s, t, 0x40) && Agree(s, t, 0x80) && Agree(s, t, 0x100) && Agree(s, t, 0x200)
    requires Agree(s, t, 0x400) && Agree(s, t, 0x800) && Agree(s, t, 0x1000)
    ensures s == t
  {
  }

  lemma SameMember(s: bv16, t: bv16, r: Relation)
    requires Members(s) == Members(t) && Valid(r)
    ensures Agree(s, t, Bit(r))
  {
    assert r in Members(s) <==> r in Members(t);
  }

  lemma SameMembers(s: bv16, t: bv16)
    requires Members(s) == Members(t)
    ensures Agree(s, t, 0x1) && Agree(s, t, 0x2) && Agree(s, t, 0x4) && Agree(s, t, 0x8) && Agree(s, t, 0x10)
    ensures Agree(s, t, 0x20) && Agree(s, t, 0x40) && Agree(s, t, 0x80) && Agree(s, t, 0x100) && Agree(s, t, 0x200)
    ensures Agree(s, t, 0x400) && Agree(s, t, 0x800) && Agree(s, t, 0x1000)
  {
    BitCodes(0);
    SameMember(s, t, 1);
    SameMember(s, t, 2);
    SameMember(s, t, 3);
    SameMember(s, t, 4);
    SameMember(s, t, 5);
    SameMember(s, t, 6);
    SameMember(s, t, 7);
    SameMember(s, t, 8);
    SameMember(s, t, 9);
    SameMember(s, t, 10);
    SameMember(s, t, 11);
    SameMember(s, t, 12);
    SameMember(s, t, 13);
  }

  /** Clean words are equal if and only if they stand for the same relations. */
  lemma CleanWordsEqual(s: bv16, t: bv16)
    requires Clean(s) && Clean(t)
    ensures s == t <==> Members(s) == Members(t)
  {
    if Members(s) == Members(t) {
      SameMembers(s, t);
      SameBits(s, t);
    }
  }

  lemma OrUnderMask(s: bv16, t: bv16, m: bv16)
    requires m & 0x1FFF == m
    ensures ((s | t) & 0x1FFF) & m != 0 <==> s & m != 0 || t & m != 0
  {
    assert ((s | t) & 0x1FFF) & m == (s & m) | (t & m);
  }

  // The singleton masks.

  lemma BitShape(r: Relation)
    requires Valid(r)
    ensures Bit(r) != 0 && Bit(r) & 0x1FFF == Bit(r) && Bit(r) & (Bit(r) - 1) == 0
  {
  }

  /** Relation r occupies bit r - 1; invalid relations occupy none. */
  lemma BitCodes(r: Relation)
    ensures Bit(1) == 0x1 && Bit(2) == 0x2 && Bit(3) == 0x4 && Bit(4) == 0x8 && Bit(5) == 0x10 && Bit(6) == 0x20
    ensures Bit(7) == 0x40 && Bit(8) == 0x80 && Bit(9) == 0x100 && Bit(10) == 0x200 && Bit(11) == 0x400
    ensures Bit(12) == 0x800 && Bit(13) == 0x1000 && (r == 0 || r > 13 ==> Bit(r) == 0)
    ensures MASK == 0x1FFF
  {
  }

  lemma BitsDiffer(r: Relation, q: Relation)
    requires Valid(r) && Valid(q)
    ensures Bit(r) & Bit(q) != 0 <==> r == q
  {
  }

  lemma AddIsInsertion(s: bv16, r: Relation, q: Relation)
    ensures Has(Add(s, r), q) <==> Has(s, q) || (q == r && Valid(r))
  {
    if Valid(q) {
      BitShape(q);
      OrUnderMask(s, Bit(r), Bit(q));
      if Valid(r) {
        BitsDiffer(r, q);
      } else {
        EmptyHasNone(Bit(q));
      }
    }
  }

  lemma EmptyHasNone(m: bv16)
    ensures 0 & m == 0
  {
  }

  lemma UnionIsUnion(s: bv16, t: bv16, q: Relation)
    ensures Has(Union(s, t), q) <==> Has(s, q) || Has(t, q)
  {
    if Valid(q) {
      BitShape(q);
      OrUnderMask(s, t, Bit(q));
    }
  }

  /** Each relation replaced by its inverse. */
  method InverseSet(s: bv16) returns (inv: bv16)
    ensures Members(inv) == InvertAll(Members(s)) && Clean(inv)
  {
    inv := 0;
    ResultsAreClean(0, 0, 1);
    for i: int := 1 to 14
      invariant Clean(inv)
      invariant forall r: Relation :: Has(inv, r) <==> Valid(r) && Inverse(r) < i && Has(s, Inverse(r))
    {
      ghost var was := inv;
      if Has(s, i) {
        ResultsAreClean(inv, 0, Inverse(i));
        inv := Add(inv, Inverse(i));
      }
      forall r: Relation
        ensures Has(inv, r) <==> Valid(r) && Inverse(r) < i + 1 && Has(s, Inverse(r))
      {
        AddIsInsertion(was, Inverse(i), r);
        InverseTwice(i);
        if Valid(r) {
          InverseTwice(r);
        }
      }
    }
    forall r: Relation
      ensures r in Members(inv) <==> r in InvertAll(Members(s))
    {
      if Valid(r) {
        InverseTwice(r);
      }
    }
  }

  // ---------- the composition table ----------

  type Triple = (Interval, Interval, Interval)

  ghost predicate Shows(t: Triple, r1: Relation, r2: Relation, r: Relation) {
    Related(t.0, t.1, t.2, r1, r2, r)
  }

  /** Some triple of the set shows that r1 followed by r2 can be r. */
  ghost predicate Shown(done: set<Triple>, r1: Relation, r2: Relation, r: Relation) {
    exists t :: t in done && Shows(t, r1, r2, r)
  }

  ghost predicate Tabulates(table: array2<bv16>, done: set<Triple>)
    reads table
  {
    && CleanTable(table)
    && forall r1: Relation, r2: Relation, r: Relation :: r1 <= 13 && r2 <= 13 ==>
         (Has(table[r1, r2], r) <==> Shown(done, r1, r2, r))
  }

  ghost predicate CleanTable(table: array2<bv16>)
    reads table
  {
    && table.Length0 == 14 && table.Length1 == 14
    && forall r1: Relation, r2: Relation :: r1 <= 13 && r2 <= 13 ==> Clean(table[r1, r2])
  }

  ghost function Composition(r1: Relation, r2: Relation): set<Relation> {
    set r: Relation | 0 <= r < 256 && Composable(r1, r2, r)
  }

  /** The table holds composition over the integers. */
  ghost predicate IsComposition(table: array2<bv16>)
    reads table
  {
    && CleanTable(table)
    && forall r1: Relation, r2: Relation :: r1 <= 13 && r2 <= 13 ==> Members(table[r1, r2]) == Composition(r1, r2)
  }

  /** The intervals of the timeline. */
  method Timeline() returns (intervals: seq<Interval>)
    ensures forall a: Interval :: a in intervals <==> OnTimeline(a)
  {
    intervals := [];
    for s := 1 to 8
      invariant forall a: Interval :: a in intervals <==> 1 <= a.start < s && a.end <= 7
    {
      for e := s + 1 to 8
        invariant forall a: Interval ::
          a in intervals <==> (1 <= a.start < s && a.end <= 7) || (a.start == s && a.end < e)
      {
        intervals := intervals + [Raw(s, e)];
      }
      assert forall a: Interval :: a.start == s && a.end < 8 <==> a.start == s && a.end <= 7;
      if s == 7 {
        assert forall a: Interval :: a in intervals <==> 1 <= a.start < 7 && a.end <= 7;
      }
    }
  }

  lemma RecordTriple(done: set<Triple>, t: Triple, r1: Relation, r2: Relation, r: Relation)
    ensures Shown(done + {t}, r1, r2, r) <==> Shown(done, r1, r2, r) || Shows(t, r1, r2, r)
  {
    if Shown(done, r1, r2, r) {
      var x :| x in done && Shows(x, r1, r2, r);
      assert x in done + {t};
    }
    if Shows(t, r1, r2, r) {
      assert t in done + {t};
    }
  }

  method Record(table: array2<bv16>, a: Interval, b: Interval, c: Interval, ghost done: set<Triple>)
    requires Tabulates(table, done)
    modifies table
    ensures Tabulates(table, done + {(a, b, c)})
  {
    var ab, bc, ac := Relate(a, b), Relate(b, c), Relate(a, c);
    ghost var was := table[ab, bc];
    ResultsAreClean(was, 0, ac);
    table[ab, bc] := Add(table[ab, bc], ac);
    forall r1: Relation, r2: Relation, r: Relation | r1 <= 13 && r2 <= 13
      ensures Has(table[r1, r2], r) <==> Shown(done + {(a, b, c)}, r1, r2, r)
    {
      RecordTriple(done, (a, b, c), r1, r2, r);
      AddIsInsertion(was, ac, r);
    }
  }

  /** A table that has seen every triple of the timeline is composition over all integers. */
  lemma TimelineSuffices(table: array2<bv16>, done: set<Triple>)
    requires Tabulates(table, done)
    requires forall a: Interval, b: Interval, c: Interval :: OnTimeline(a) && OnTimeline(b) && OnTimeline(c) ==>
        (a, b, c) in done
    ensures IsComposition(table)
  {
    forall r1: Relation, r2: Relation, r: Relation | r1 <= 13 && r2 <= 13
      ensures Shown(done, r1, r2, r) <==> Composable(r1, r2, r)
    {
      if Shown(done, r1, r2, r) {
        var t :| t in done && Shows(t, r1, r2, r);
        assert Related(t.0, t.1, t.2, r1, r2, r);
      }
      if Composable(r1, r2, r) {
        var a: Interval, b: Interval, c: Interval :| Related(a, b, c, r1, r2, r);
        var a', b', c' := Compress(a, b, c);
        assert (a', b', c') in done && Shows((a', b', c'), r1, r2, r);
      }
    }
  }

  /** The table built at start-up is sound and exact for all integer intervals. */
  method BuildCompositionTable() returns (table: array2<bv16>)
    ensures IsComposition(table)
  {
    table := new bv16[14, 14]((i, j) => 0);
    ResultsAreClean(0, 0, 1);
    var intervals := Timeline();
    ghost var done: set<Triple> := {};
    assert Tabulates(table, done);
    for i := 0 to |intervals|
      invariant Tabulates(table, done)
      invariant forall a: Interval, b: Interval, c: Interval ::
        a in intervals[..i] && b in intervals && c in intervals ==> (a, b, c) in done
    {
      for j := 0 to |intervals|
        invariant Tabulates(table, done)
        invariant forall a: Interval, b: Interval, c: Interval ::
          a in intervals[..i] && b in intervals && c in intervals ==> (a, b, c) in done
        invariant forall b: Interval, c: Interval :: b in intervals[..j] && c in intervals ==>
            (intervals[i], b, c) in done
      {
        for k := 0 to |intervals|
          invariant Tabulates(table, done)
          invariant forall a: Interval, b: Interval, c: Interval ::
            a in intervals[..i] && b in intervals && c in intervals ==> (a, b, c) in done
          invariant forall b: Interval, c: Interval :: b in intervals[..j] && c in intervals ==>
              (intervals[i], b, c) in done
          invariant forall c: Interval :: c in intervals[..k] ==> (intervals[i], intervals[j], c) in done
        {
          Record(table, intervals[i], intervals[j], intervals[k], done);
          done := done + {(intervals[i], intervals[j], intervals[k])};
          assert intervals[..k + 1] == intervals[..k] + [intervals[k]];
        }
        assert intervals[..|intervals|] == intervals && intervals[..j + 1] == intervals[..j] + [intervals[j]];
      }
      assert intervals[..|intervals|] == intervals && intervals[..i + 1] == intervals[..i] + [intervals[i]];
    }
    assert intervals[..|intervals|] == intervals;
    TimelineSuffices(table, done);
  }

  lemma UnionMembers(s: bv16, t: bv16)
    ensures Members(Union(s, t)) == Members(s) + Members(t)
  {
    forall r: Relation
      ensures r in Members(Union(s, t)) <==> r in Members(s) || r in Members(t)
    {
      UnionIsUnion(s, t, r);
    }
  }

  lemma EmptyMembers()
    ensures Members(0) == {}
  {
    forall r: Relation
      ensures r !in Members(0)
    {
      EmptyHasNone(Bit(r));
    }
  }

  lemma NoComposition(r1: Relation, r2: Relation)
    requires !Valid(r1) || !Valid(r2)
    ensures Composition(r1, r2) == {}
  {
  }

  predicate Contains(s: bv16, r: Relation)
    ensures Contains(s, r) <==> r in Members(s)
  {
    Has(s, r)
  }

  /** The relations that can hold between A and C given A r1 B and B r2 C; empty for invalid relations. */
  method Compose(table: array2<bv16>, r1: Relation, r2: Relation) returns (s: bv16)
    requires IsComposition(table)
    ensures Members(s) == Composition(r1, r2) && Clean(s)
  {
    if r1 < 1 || r1 > 13 || r2 < 1 || r2 > 13 {
      EmptyMembers();
      NoComposition(r1, r2);
      ResultsAreClean(0, 0, 1);
      return 0;
    }
    s := table[r1, r2];
  }

  /** What the pairs before (i, j) of the double loop contribute. */
  ghost predicate FromPairs(a: set<Relation>, b: set<Relation>, i: int, j: int, r: Relation) {
    exists r1: Relation, r2: Relation :: (r1 < i || (r1 == i && r2 < j)) && ComposesVia(a, b, r1, r2, r)
  }

  ghost function SoFar(a: set<Relation>, b: set<Relation>, i: int, j: int): set<Relation> {
    set r: Relation | 0 <= r < 256 && FromPairs(a, b, i, j, r)
  }

  lemma NextPair(a: set<Relation>, b: set<Relation>, i: Relation, j: Relation)
    ensures SoFar(a, b, i, j + 1) == SoFar(a, b, i, j) + (if i in a && j in b then Composition(i, j) else {})
  {
    var here := if i in a && j in b then Composition(i, j) else {};
    forall r: Relation
      ensures FromPairs(a, b, i, j + 1, r) <==> FromPairs(a, b, i, j, r) || r in here
    {
      assert r in here <==> ComposesVia(a, b, i, j, r);
    }
  }

  lemma NextRow(a: set<Relation>, b: set<Relation>, i: Relation)
    ensures SoFar(a, b, i + 1, 1) == SoFar(a, b, i, if i in a then 14 else 1)
  {
    var j := if i in a then 14 else 1;
    forall r: Relation
      ensures r in SoFar(a, b, i + 1, 1) <==> r in SoFar(a, b, i, j)
    {
      if r in SoFar(a, b, i + 1, 1) {
        var r1: Relation, r2: Relation :| r1 <= i + 1 && ComposesVia(a, b, r1, r2, r) && (r1 == i + 1 ==> r2 < 1);
        ComposableIsValid(r1, r2, r);
      }
      if r in SoFar(a, b, i, j) {
        var r1: Relation, r2: Relation :| r1 <= i && ComposesVia(a, b, r1, r2, r);
      }
    }
  }

  lemma NoPair(a: set<Relation>, b: set<Relation>)
    ensures SoFar(a, b, 1, 1) == {}
  {
  }

  lemma AllPairs(a: set<Relation>, b: set<Relation>)
    ensures SoFar(a, b, 14, 1) == ComposeAll(a, b)
  {
    forall r: Relation
      ensures r in SoFar(a, b, 14, 1) <==> r in ComposeAll(a, b)
    {
      if r in ComposeAll(a, b) {
        var r1, r2 := Origin(a, b, r);
        ComposableIsValid(r1, r2, r);
        assert ComposesVia(a, b, r1, r2, r);
      }
    }
  }

  /** Adds the composition of two relations to a set. */
  method AddComposition(table: array2<bv16>, start: bv16, i: Relation, j: Relation) returns (result: bv16)
    requires IsComposition(table)
    ensures Members(result) == Members(start) + Composition(i, j) && Clean(result)
  {
    var s := Compose(table, i, j);
    ResultsAreClean(start, s, 1);
    UnionMembers(start, s);
    result := Union(start, s);
  }

  lemma ContainsMember(s: bv16, r: Relation)
    requires 1 <= r <= 13
    ensures Contains(s, r) <==> r in Members(s)
  {
  }

  /** One turn of the inner loop. */
  method AddPair(table: array2<bv16>, start: bv16, i: Relation, j: Relation, b: bv16, ghost A: set<Relation>,
      ghost B: set<Relation>)
    returns (result: bv16)
    requires IsComposition(table) && i in A && B == Members(b) && 1 <= j <= 13 && Members(start) == SoFar(A, B, i, j)
    ensures Members(result) == SoFar(A, B, i, j + 1) && (Clean(start) ==> Clean(result))
  {
    ContainsMember(b, j);
    NextPair(A, B, i, j);
    if Contains(b, j) {
      result := AddComposition(table, start, i, j);
    } else {
      result := start;
    }
  }

  /** Adds the compositions of relation i with the members of b. */
  method ComposeRow(table: array2<bv16>, start: bv16, i: Relation, b: bv16, ghost A: set<Relation>,
      ghost B: set<Relation>)
    returns (result: bv16)
    requires IsComposition(table) && i in A && B == Members(b) && Members(start) == SoFar(A, B, i, 1)
    ensures Members(result) == SoFar(A, B, i, 14) && (Clean(start) ==> Clean(result))
  {
    result := start;
    for j: int := 1 to 14
      invariant Clean(start) ==> Clean(result)
      invariant Members(result) == SoFar(A, B, i, j)
    {
      result := AddPair(table, result, i, j, b, A, B);
    }
  }

  /** The union of the compositions of the members of a with the members of b. */
  method ComposeSets(table: array2<bv16>, a: bv16, b: bv16) returns (result: bv16)
    requires IsComposition(table)
    ensures Members(result) == ComposeAll(Members(a), Members(b)) && Clean(result)
  {
    result := 0;
    ResultsAreClean(0, 0, 1);
    ghost var A, B := Members(a), Members(b);
    EmptyMembers();
    NoPair(A, B);
    for i: int := 1 to 14
      invariant Members(result) == SoFar(A, B, i, 1) && Clean(result)
    {
      if Contains(a, i) {
        result := ComposeRow(table, result, i, b, A, B);
      }
      NextRow(A, B, i);
    }
    AllPairs(A, B);
  }

  // ---------- what the answers mean ----------

  /** A mask stands for relation r exactly if r is valid and its bit is set. */
  lemma MembersMean(s: bv16, r: Relation)
    ensures r in Members(s) <==> 1 <= r <= 13 && s & Bit(r) != 0
  {
  }

  /** Whatever three intervals there are, the table lists the relation of the first to the last. */
  lemma TableIsSound(table: array2<bv16>, a: Interval, b: Interval, c: Interval)
    requires IsComposition(table)
    ensures table[Relate(a, b), Relate(b, c)] & Bit(Relate(a, c)) != 0
  {
    var r1, r2, r := Relate(a, b), Relate(b, c), Relate(a, c);
    assert Related(a, b, c, r1, r2, r);
    assert r in Members(table[r1, r2]);
  }

  /** Whatever the table lists is the relation of some three intervals. */
  lemma TableIsExact(table: array2<bv16>, r1: Relation, r2: Relation, r: Relation)
      returns (a: Interval, b: Interval, c: Interval)
    requires IsComposition(table) && 1 <= r1 <= 13 && 1 <= r2 <= 13 && 1 <= r <= 13 && table[r1, r2] & Bit(r) != 0
    ensures Relate(a, b) == r1 && Relate(b, c) == r2 && Relate(a, c) == r
  {
    assert r in Members(table[r1, r2]);
    assert Composable(r1, r2, r);
    a, b, c :| Related(a, b, c, r1, r2, r);
  }

  /** Composition of sets in intervals, and inversion of sets member by member. */
  lemma SetsMean(A: set<Relation>, B: set<Relation>, r: Relation)
    ensures r in ComposeAll(A, B) <==>
            exists a: Interval, b: Interval, c: Interval ::
              Relate(a, b) in A && Relate(b, c) in B && Relate(a, c) == r
    ensures Valid(r) ==> (r in InvertAll(A) <==> Inverse(r) in A)
  {
    if r in ComposeAll(A, B) {
      var r1, r2 := Origin(A, B, r);
      var a, b, c :| Related(a, b, c, r1, r2, r);
      assert Relate(a, b) in A && Relate(b, c) in B && Relate(a, c) == r;
    }
    if a: Interval, b: Interval, c: Interval :| Relate(a, b) in A && Relate(b, c) in B && Relate(a, c) == r {
      assert Related(a, b, c, Relate(a, b), Relate(b, c), r);
      Member(A, B, Relate(a, b), Relate(b, c), r);
    }
    if Valid(r) {
      InverseTwice(r);
      assert Inverse(Inverse(r)) == r;
    }
  }
}
