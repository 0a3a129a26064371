/**
 Allen's interval algebra.

 The composition table is filled by enumerating the triples of the 21 intervals of a seven-point
 timeline. It is nevertheless the exact composition over all integers: any three intervals can be
 compressed, order and all, into six points.
*/
module Allen {

  // ---------- relations ----------

  /** A relation is a small integer; 1 to 13 are defined, everything else is invalid. */
  type Relation = r: int | 0 <= r < 256

  const BEFORE: Relation := 1
  const AFTER: Relation := 2
  const MEETS: Relation := 3
  const MET_BY: Relation := 4
  const OVERLAPS: Relation := 5
  const OVERLAPPED_BY: Relation := 6
  const STARTS: Relation := 7
  const STARTED_BY: Relation := 8
  const DURING: Relation := 9
  const CONTAINS: Relation := 10
  const FINISHES: Relation := 11
  const FINISHED_BY: Relation := 12
  const EQUALS: Relation := 13

  predicate Valid(r: int) { 1 <= r <= 13 }

  datatype Raw = Raw(start: int, end: int)

  /** A non-empty half-open interval. */
  type Interval = i: Raw | i.start < i.end witness Raw(0, 1)

  function Relate(a: Interval, b: Interval): (r: Relation)
    ensures Valid(r)
  {
    if a.end < b.start then BEFORE
    else if b.end < a.start then AFTER
    else if a.end == b.start then MEETS
    else if b.end == a.start then MET_BY
    else if a.start == b.start && a.end == b.end then EQUALS
    else if a.start == b.start && a.end < b.end then STARTS
    else if a.start == b.start && a.end > b.end then STARTED_BY
    else if a.end == b.end && a.start > b.start then FINISHES
    else if a.end == b.end && a.start < b.start then FINISHED_BY
    else if a.start > b.start && a.end < b.end then DURING
    else if a.start < b.start && a.end > b.end then CONTAINS
    else if a.start < b.start then OVERLAPS
    else OVERLAPPED_BY
  }

  function Inverse(r: Relation): Relation {
    if r == BEFORE then AFTER
    else if r == AFTER then BEFORE
    else if r == MEETS then MET_BY
    else if r == MET_BY then MEETS
    else if r == OVERLAPS then OVERLAPPED_BY
    else if r == OVERLAPPED_BY then OVERLAPS
    else if r == STARTS then STARTED_BY
    else if r == STARTED_BY then STARTS
    else if r == DURING then CONTAINS
    else if r == CONTAINS then DURING
    else if r == FINISHES then FINISHED_BY
    else if r == FINISHED_BY then FINISHES
    else if r == EQUALS then EQUALS
    else 0
  }

  /** How two integers compare. */
  function Sign(x: int, y: int): int { if x < y then -1 else if x == y then 0 else 1 }

  predicate SameOrder(x: int, y: int, x': int, y': int) { Sign(x, y) == Sign(x', y') }

  /** The relation is exactly the comparison of the four endpoint pairs: no two relations share one. */
  lemma RelateIsEndpointOrder(a: Interval, b: Interval, a': Interval, b': Interval)
    ensures Relate(a, b) == Relate(a', b') <==>
      && SameOrder(a.start, b.start, a'.start, b'.start) && SameOrder(a.start, b.end, a'.start, b'.end)
      && SameOrder(a.end, b.start, a'.end, b'.start) && SameOrder(a.end, b.end, a'.end, b'.end)
  {
  }

  /** Each relation by its endpoints, whatever the order in which the cases are tried. */
  lemma RelateMeans(a: Interval, b: Interval)
    ensures Relate(a, b) == BEFORE <==> a.end < b.start
    ensures Relate(a, b) == AFTER <==> b.end < a.start
    ensures Relate(a, b) == MEETS <==> a.end == b.start
    ensures Relate(a, b) == MET_BY <==> b.end == a.start
    ensures Relate(a, b) == OVERLAPS <==> a.start < b.start < a.end < b.end
    ensures Relate(a, b) == OVERLAPPED_BY <==> b.start < a.start < b.end < a.end
    ensures Relate(a, b) == STARTS <==> a.start == b.start && a.end < b.end
    ensures Relate(a, b) == STARTED_BY <==> a.start == b.start && b.end < a.end
    ensures Relate(a, b) == DURING <==> b.start < a.start && a.end < b.end
    ensures Relate(a, b) == CONTAINS <==> a.start < b.start && b.end < a.end
    ensures Relate(a, b) == FINISHES <==> b.start < a.start && a.end == b.end
    ensures Relate(a, b) == FINISHED_BY <==> a.start < b.start && a.end == b.end
    ensures Relate(a, b) == EQUALS <==> a.start == b.start && a.end == b.end
  {
  }

  /** The numbers of the relations. */
  lemma RelationCodes()
    ensures BEFORE == 1 && AFTER == 2 && MEETS == 3 && MET_BY == 4 && OVERLAPS == 5 && OVERLAPPED_BY == 6
    ensures STARTS == 7 && STARTED_BY == 8 && DURING == 9 && CONTAINS == 10 && FINISHES == 11 && FINISHED_BY == 12
    ensures EQUALS == 13
  {
  }

  /** Relations 1 and 2, 3 and 4 and so on up to 12 are inverse to each other, 13 to itself; others have no inverse. */
  lemma InverseCodes(r: Relation)
    ensures Inverse(r) == if r == 13 then 13 else if r == 0 || r > 13 then 0 else if r % 2 == 1 then r + 1 else r - 1
  {
  }

  lemma InverseSwaps(a: Interval, b: Interval)
    ensures Relate(b, a) == Inverse(Relate(a, b))
  {
  }

  // ---------- composition over the integers ----------

  ghost predicate Related(a: Interval, b: Interval, c: Interval, r1: Relation, r2: Relation, r: Relation) {
    Relate(a, b) == r1 && Relate(b, c) == r2 && Relate(a, c) == r
  }

  /** Some integer intervals a, b, c have a r1 b, b r2 c and a r c. */
  ghost predicate Composable(r1: Relation, r2: Relation, r: Relation) {
    exists a: Interval, b: Interval, c: Interval :: Related(a, b, c, r1, r2, r)
  }

  predicate OnTimeline(a: Interval) { 1 <= a.start && a.end <= 7 }

  /** One more than the number of the six endpoints that lie below x. */
  function Rank(x: int, a: Interval, b: Interval, c: Interval): int {
    1 + (if a.start < x then 1 else 0) + (if a.end < x then 1 else 0)
      + (if b.start < x then 1 else 0) + (if b.end < x then 1 else 0)
      + (if c.start < x then 1 else 0) + (if c.end < x then 1 else 0)
  }

  /** Any three intervals have the pairwise relations of three intervals of the timeline. */
  lemma Compress(a: Interval, b: Interval, c: Interval) returns (a': Interval, b': Interval, c': Interval)
    ensures OnTimeline(a') && OnTimeline(b') && OnTimeline(c')
    ensures Relate(a', b') == Relate(a, b) && Relate(b', c') == Relate(b, c) && Relate(a', c') == Relate(a, c)
  {
    a' := Raw(Rank(a.start, a, b, c), Rank(a.end, a, b, c));
    b' := Raw(Rank(b.start, a, b, c), Rank(b.end, a, b, c));
    c' := Raw(Rank(c.start, a, b, c), Rank(c.end, a, b, c));
    RelateIsEndpointOrder(a, b, a', b');
    RelateIsEndpointOrder(b, c, b', c');
    RelateIsEndpointOrder(a, c, a', c');
  }

  /** Some compositions in endpoints: a chain of meetings, of overlaps, and of inclusions. */
  lemma KnownCompositions(r: Relation)
    ensures Composable(MEETS, MEETS, r) <==> r == BEFORE
    ensures Composable(DURING, DURING, r) <==> r == DURING
    ensures Composable(OVERLAPS, OVERLAPS, r) <==> r == BEFORE || r == MEETS || r == OVERLAPS
  {
    assert Related(Raw(1, 2), Raw(2, 3), Raw(3, 4), MEETS, MEETS, BEFORE);
    assert Related(Raw(3, 4), Raw(2, 5), Raw(1, 6), DURING, DURING, DURING);
    assert Related(Raw(1, 3), Raw(2, 5), Raw(4, 6), OVERLAPS, OVERLAPS, BEFORE);
    assert Related(Raw(1, 3), Raw(2, 4), Raw(3, 5), OVERLAPS, OVERLAPS, MEETS);
    assert Related(Raw(1, 4), Raw(2, 5), Raw(3, 6), OVERLAPS, OVERLAPS, OVERLAPS);
    if Composable(MEETS, MEETS, r) {
      var a, b, c :| Related(a, b, c, MEETS, MEETS, r);
      RelateMeans(a, b);
      RelateMeans(b, c);
      RelateMeans(a, c);
    }
    if Composable(DURING, DURING, r) {
      var a, b, c :| Related(a, b, c, DURING, DURING, r);
      RelateMeans(a, b);
      RelateMeans(b, c);
      RelateMeans(a, c);
    }
    if Composable(OVERLAPS, OVERLAPS, r) {
      var a, b, c :| Related(a, b, c, OVERLAPS, OVERLAPS, r);
      RelateMeans(a, b);
      RelateMeans(b, c);
      RelateMeans(a, c);
    }
  }

  lemma InverseTwice(r: Relation)
    requires Valid(r)
    ensures Valid(Inverse(r)) && Inverse(Inverse(r)) == r
  {
  }

  /** Inversion reverses composition. */
  lemma InverseReversesComposition(r1: Relation, r2: Relation, r: Relation)
    requires Valid(r1) && Valid(r2) && Valid(r)
    ensures Composable(r1, r2, r) <==> Composable(Inverse(r2), Inverse(r1), Inverse(r))
  {
    InverseTwice(r1);
    InverseTwice(r2);
    InverseTwice(r);
    var i1, i2, i := Inverse(r1), Inverse(r2), Inverse(r);
    if Composable(r1, r2, r) {
      InvertWitness(r1, r2, r);
    } else if Composable(i2, i1, i) {
      InvertWitness(i2, i1, i);
    }
  }

  lemma InvertWitness(r1: Relation, r2: Relation, r: Relation)
    requires Composable(r1, r2, r)
    ensures Composable(Inverse(r2), Inverse(r1), Inverse(r))
  {
    var a: Interval, b: Interval, c: Interval :| Related(a, b, c, r1, r2, r);
    InverseSwaps(a, b);
    InverseSwaps(b, c);
    InverseSwaps(a, c);
    assert Related(c, b, a, Inverse(r2), Inverse(r1), Inverse(r));
  }

  /** Equals is the neutral relation. */
  lemma EqualsIsNeutral(r1: Relation, r: Relation)
    requires Valid(r1)
    ensures Composable(EQUALS, r1, r) <==> r == r1
    ensures Composable(r1, EQUALS, r) <==> r == r1
  {
    var a, b := Realise(r1);
    assert Related(a, a, b, EQUALS, r1, r1) && Related(a, b, b, r1, EQUALS, r1);
  }

  /** Every relation holds between some two intervals of the timeline. */
  lemma Realise(r: Relation) returns (a: Interval, b: Interval)
    requires Valid(r)
    ensures Relate(a, b) == r && OnTimeline(a) && OnTimeline(b)
  {
    var i, j := Raw(1, 3), Raw(2, 4);
    if r == BEFORE { a, b := Raw(1, 2), Raw(3, 4); }
    else if r == AFTER { a, b := Raw(3, 4), Raw(1, 2); }
    else if r == MEETS { a, b := Raw(1, 2), Raw(2, 3); }
    else if r == MET_BY { a, b := Raw(2, 3), Raw(1, 2); }
    else if r == OVERLAPS { a, b := i, j; }
    else if r == OVERLAPPED_BY { a, b := j, i; }
    else if r == STARTS { a, b := Raw(1, 2), i; }
    else if r == STARTED_BY { a, b := i, Raw(1, 2); }
    else if r == DURING { a, b := Raw(2, 3), Raw(1, 4); }
    else if r == CONTAINS { a, b := Raw(1, 4), Raw(2, 3); }
    else if r == FINISHES { a, b := Raw(2, 3), i; }
    else if r == FINISHED_BY { a, b := i, Raw(2, 3); }
    else { a, b := i, i; }
  }

  // ---------- composition is associative ----------

  /** Four corresponding points of two timelines are in the same order. */
  ghost predicate SameShape(p: seq<int>, q: seq<int>) {
    |p| == |q| == 4 && forall i, j :: 0 <= i < 4 && 0 <= j < 4 ==> (p[i] < p[j] <==> q[i] < q[j])
  }

  function Max(x: int, y: int): int { if x < y then y else x }
  function Min(x: int, y: int): int { if x < y then x else y }

  /** Where point x, seen among the points p, goes when p[i] moves to 8 * q[i]; d separates points of one gap. */
  function Place(x: int, d: int, p: seq<int>, q: seq<int>): int
    requires |p| == |q| == 4
  {
    var low := 8 * Min(Min(q[0], q[1]), Min(q[2], q[3])) - 4 + d;
    Max(Max(Slot(x, d, p[0], q[0], low), Slot(x, d, p[1], q[1], low)), Max(Slot(x, d, p[2], q[2], low), Slot(x, d,
        p[3], q[3], low)))
  }

  function Slot(x: int, d: int, pi: int, qi: int, low: int): int {
    if x < pi then low else 8 * qi + (if x == pi then 0 else d)
  }

  lemma PlaceKeepsOrder(x: int, d: int, p: seq<int>, q: seq<int>, i: nat)
    requires SameShape(p, q) && 1 <= d <= 2 && i < 4
    ensures SameOrder(x, p[i], Place(x, d, p, q), 8 * q[i])
  {
    assert p[0] < p[i] <==> q[0] < q[i];
    assert p[1] < p[i] <==> q[1] < q[i];
    assert p[2] < p[i] <==> q[2] < q[i];
    assert p[3] < p[i] <==> q[3] < q[i];
    assert p[i] < p[0] <==> q[i] < q[0];
    assert p[i] < p[1] <==> q[i] < q[1];
    assert p[i] < p[2] <==> q[i] < q[2];
    assert p[i] < p[3] <==> q[i] < q[3];
  }

  lemma PlaceSeparates(x: int, y: int, p: seq<int>, q: seq<int>)
    requires SameShape(p, q) && x < y
    ensures Place(x, 1, p, q) < Place(y, 2, p, q)
  {
  }

  function Scale(a: Interval): Interval { Raw(8 * a.start, 8 * a.end) }

  function Ends(a: Interval, c: Interval): seq<int> { [a.start, a.end, c.start, c.end] }

  lemma SameRelationSameShape(a: Interval, c: Interval, a': Interval, c': Interval)
    requires Relate(a, c) == Relate(a', c')
    ensures SameShape(Ends(a, c), Ends(a', c'))
  {
    RelateIsEndpointOrder(a, c, a', c');
  }

  lemma ScaleKeepsRelations(a: Interval, b: Interval)
    ensures Relate(Scale(a), Scale(b)) == Relate(a, b)
  {
    RelateIsEndpointOrder(a, b, Scale(a), Scale(b));
  }

  /** An interval seen beside a' and c' can be placed beside any a and c that relate alike. */
  lemma Amalgamate(a': Interval, b': Interval, c': Interval, a: Interval, c: Interval) returns (b: Interval)
    requires Relate(a', c') == Relate(a, c)
    ensures Relate(Scale(a), b) == Relate(a', b') && Relate(b, Scale(c)) == Relate(b', c')
  {
    var p, q := Ends(a', c'), Ends(a, c);
    SameRelationSameShape(a', c', a, c);
    PlaceSeparates(b'.start, b'.end, p, q);
    b := Raw(Place(b'.start, 1, p, q), Place(b'.end, 2, p, q));
    forall i: nat | i < 4
      ensures SameOrder(b'.start, p[i], b.start, 8 * q[i]) && SameOrder(b'.end, p[i], b.end, 8 * q[i])
    {
      PlaceKeepsOrder(b'.start, 1, p, q, i);
      PlaceKeepsOrder(b'.end, 2, p, q, i);
    }
    assert SameOrder(b'.start, p[0], b.start, 8 * q[0]) && SameOrder(b'.end, p[0], b.end, 8 * q[0]);
    assert SameOrder(b'.start, p[1], b.start, 8 * q[1]) && SameOrder(b'.end, p[1], b.end, 8 * q[1]);
    assert SameOrder(b'.start, p[2], b.start, 8 * q[2]) && SameOrder(b'.end, p[2], b.end, 8 * q[2]);
    assert SameOrder(b'.start, p[3], b.start, 8 * q[3]) && SameOrder(b'.end, p[3], b.end, 8 * q[3]);
    RelateIsEndpointOrder(a', b', Scale(a), b);
    RelateIsEndpointOrder(b', c', b, Scale(c));
  }

  ghost predicate LeftComposable(r1: Relation, r2: Relation, r3: Relation, r: Relation) {
    exists s: Relation :: Composable(r1, r2, s) && Composable(s, r3, r)
  }

  ghost predicate RightComposable(r1: Relation, r2: Relation, r3: Relation, r: Relation) {
    exists s: Relation :: Composable(r2, r3, s) && Composable(r1, s, r)
  }

  lemma ComposeWitness(a: Interval, b: Interval, c: Interval)
    ensures Composable(Relate(a, b), Relate(b, c), Relate(a, c))
  {
    assert Related(a, b, c, Relate(a, b), Relate(b, c), Relate(a, c));
  }

  lemma LeftToRight(r1: Relation, r2: Relation, r3: Relation, r: Relation)
    requires LeftComposable(r1, r2, r3, r)
    ensures RightComposable(r1, r2, r3, r)
  {
    var s: Relation :| Composable(r1, r2, s) && Composable(s, r3, r);
    var a': Interval, b': Interval, c': Interval :| Related(a', b', c', r1, r2, s);
    var a: Interval, c: Interval, d: Interval :| Related(a, c, d, s, r3, r);
    var b := Amalgamate(a', b', c', a, c);
    ScaleKeepsRelations(c, d);
    ScaleKeepsRelations(a, d);
    ComposeWitness(b, Scale(c), Scale(d));
    ComposeWitness(Scale(a), b, Scale(d));
  }

  lemma InvertSides(r1: Relation, r2: Relation, r3: Relation, r: Relation)
    requires RightComposable(r1, r2, r3, r)
    ensures LeftComposable(Inverse(r3), Inverse(r2), Inverse(r1), Inverse(r))
  {
    var s: Relation :| Composable(r2, r3, s) && Composable(r1, s, r);
    InvertWitness(r2, r3, s);
    InvertWitness(r1, s, r);
  }

  lemma InvertSidesBack(r1: Relation, r2: Relation, r3: Relation, r: Relation)
    requires Valid(r1) && Valid(r2) && Valid(r3) && Valid(r)
    requires RightComposable(Inverse(r3), Inverse(r2), Inverse(r1), Inverse(r))
    ensures LeftComposable(r1, r2, r3, r)
  {
    InverseTwice(r1);
    InverseTwice(r2);
    InverseTwice(r3);
    InverseTwice(r);
    InvertSides(Inverse(r3), Inverse(r2), Inverse(r1), Inverse(r));
  }

  /** Composition is associative: a fourth interval can always be fitted in. */
  lemma CompositionIsAssociative(r1: Relation, r2: Relation, r3: Relation, r: Relation)
    requires Valid(r1) && Valid(r2) && Valid(r3) && Valid(r)
    ensures LeftComposable(r1, r2, r3, r) <==> RightComposable(r1, r2, r3, r)
  {
    if LeftComposable(r1, r2, r3, r) {
      LeftToRight(r1, r2, r3, r);
    }
    if RightComposable(r1, r2, r3, r) {
      InvertSides(r1, r2, r3, r);
      LeftToRight(Inverse(r3), Inverse(r2), Inverse(r1), Inverse(r));
      InvertSidesBack(r1, r2, r3, r);
    }
  }

  // ---------- sets of relations ----------

  ghost predicate ComposesVia(a: set<Relation>, b: set<Relation>, r1: Relation, r2: Relation, r: Relation) {
    r1 in a && r2 in b && Composable(r1, r2, r)
  }

  /** Some member of a composed with some member of b can be r. */
  ghost predicate CanCompose(a: set<Relation>, b: set<Relation>, r: Relation) {
    exists r1: Relation, r2: Relation :: ComposesVia(a, b, r1, r2, r)
  }

  ghost function ComposeAll(a: set<Relation>, b: set<Relation>): set<Relation> {
    set r: Relation | 0 <= r < 256 && CanCompose(a, b, r)
  }

  ghost function InvertAll(a: set<Relation>): set<Relation> {
    set r: Relation | 0 <= r < 256 && Valid(r) && Inverse(r) in a
  }

  lemma ComposableIsValid(r1: Relation, r2: Relation, r: Relation)
    requires Composable(r1, r2, r)
    ensures Valid(r1) && Valid(r2) && Valid(r)
  {
  }

  lemma Member(a: set<Relation>, b: set<Relation>, r1: Relation, r2: Relation, r: Relation)
    requires r1 in a && r2 in b && Composable(r1, r2, r)
    ensures r in ComposeAll(a, b)
  {
    assert ComposesVia(a, b, r1, r2, r);
  }

  lemma Origin(a: set<Relation>, b: set<Relation>, r: Relation) returns (r1: Relation, r2: Relation)
    requires r in ComposeAll(a, b)
    ensures r1 in a && r2 in b && Composable(r1, r2, r)
  {
    r1, r2 :| ComposesVia(a, b, r1, r2, r);
  }

  lemma SetMemberAssociates(a: set<Relation>, b: set<Relation>, c: set<Relation>, r: Relation)
    ensures r in ComposeAll(ComposeAll(a, b), c) <==> r in ComposeAll(a, ComposeAll(b, c))
  {
    if r in ComposeAll(ComposeAll(a, b), c) {
      var s, r3 := Origin(ComposeAll(a, b), c, r);
      var r1, r2 := Origin(a, b, s);
      ComposableIsValid(s, r3, r);
      ComposableIsValid(r1, r2, s);
      CompositionIsAssociative(r1, r2, r3, r);
      var t: Relation :| Composable(r2, r3, t) && Composable(r1, t, r);
      Member(b, c, r2, r3, t);
      Member(a, ComposeAll(b, c), r1, t, r);
    }
    if r in ComposeAll(a, ComposeAll(b, c)) {
      var r1, s := Origin(a, ComposeAll(b, c), r);
      var r2, r3 := Origin(b, c, s);
      ComposableIsValid(r1, s, r);
      ComposableIsValid(r2, r3, s);
      CompositionIsAssociative(r1, r2, r3, r);
      var t: Relation :| Composable(r1, r2, t) && Composable(t, r3, r);
      Member(a, b, r1, r2, t);
      Member(ComposeAll(a, b), c, t, r3, r);
    }
  }

  /** Composition of sets is associative. */
  lemma SetsAssociate(a: set<Relation>, b: set<Relation>, c: set<Relation>)
    ensures ComposeAll(ComposeAll(a, b), c) == ComposeAll(a, ComposeAll(b, c))
  {
    forall r: Relation
      ensures r in ComposeAll(ComposeAll(a, b), c) <==> r in ComposeAll(a, ComposeAll(b, c))
    {
      SetMemberAssociates(a, b, c, r);
    }
  }

  lemma InverseMember(a: set<Relation>, b: set<Relation>, r: Relation)
    requires Valid(r)
    ensures Inverse(r) in ComposeAll(a, b) <==> r in ComposeAll(InvertAll(b), InvertAll(a))
  {
    InverseTwice(r);
    if Inverse(r) in ComposeAll(a, b) {
      var r1, r2 := Origin(a, b, Inverse(r));
      ComposableIsValid(r1, r2, Inverse(r));
      InverseTwice(r1);
      InverseTwice(r2);
      InvertWitness(r1, r2, Inverse(r));
      Member(InvertAll(b), InvertAll(a), Inverse(r2), Inverse(r1), r);
    }
    if r in ComposeAll(InvertAll(b), InvertAll(a)) {
      var r2, r1 := Origin(InvertAll(b), InvertAll(a), r);
      InvertWitness(r2, r1, r);
      Member(a, b, Inverse(r1), Inverse(r2), Inverse(r));
    }
  }

  /** Inverting a composition of sets is composing the inverses the other way round. */
  lemma InverseReversesSets(a: set<Relation>, b: set<Relation>)
    ensures InvertAll(ComposeAll(a, b)) == ComposeAll(InvertAll(b), InvertAll(a))
  {
    forall r: Relation
      ensures r in InvertAll(ComposeAll(a, b)) <==> r in ComposeAll(InvertAll(b), InvertAll(a))
    {
      if Valid(r) {
        InverseMember(a, b, r);
      } else if r in ComposeAll(InvertAll(b), InvertAll(a)) {
        var r2, r1 := Origin(InvertAll(b), InvertAll(a), r);
        ComposableIsValid(r2, r1, r);
      }
    }
  }
}
