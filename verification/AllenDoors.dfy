/**
 The two public classifiers: Relate for closed intervals, RelateOpen for intervals whose end may be open. What
 they accept is compared with what their documentation asks for, and the open one with true infinity.
*/
module AllenDoors {
  import opened Allen

  datatype Answer = OpenInterval | InvalidInterval | Classified(r: Relation)

  // ---------- closed intervals ----------

  function RelateClosed(a: Raw, b: Raw): Answer {
    if a.start == 0 || a.end == 0 || b.start == 0 || b.end == 0 then OpenInterval
    else if a.start >= a.end || b.start >= b.end then InvalidInterval
    else Classified(Relate(a, b))
  }

  /** All four endpoints are above 0, and each interval starts before it ends. */
  predicate Documented(a: Raw, b: Raw) { 0 < a.start < a.end && 0 < b.start < b.end }

  /** Some endpoint lies before the instant 0. */
  predicate Negative(a: Raw, b: Raw) { a.start < 0 || a.end < 0 || b.start < 0 || b.end < 0 }

  /** Both intervals are non-empty and none of the endpoints is 0. */
  predicate Usable(a: Raw, b: Raw) {
    a.start < a.end && b.start < b.end && a.start != 0 && a.end != 0 && b.start != 0 && b.end != 0
  }

  /**
   Every input that the documentation admits is classified, and swapping the intervals inverts the answer; beyond
   it, exactly the usable inputs with a negative endpoint are classified too.
  */
  lemma RelateClosedAccepts(a: Raw, b: Raw)
    ensures RelateClosed(a, b).Classified? <==> Documented(a, b) || (Usable(a, b) && Negative(a, b))
    ensures RelateClosed(a, b).Classified? ==> RelateClosed(b, a) == Classified(Inverse(RelateClosed(a, b).r))
    ensures !RelateClosed(a, b).Classified? ==> RelateClosed(b, a) == RelateClosed(a, b)
  {
    if RelateClosed(a, b).Classified? {
      InverseSwaps(a, b);
    }
  }

  /** Acceptance is as documented if and only if the input is not usable or has no negative endpoint. */
  lemma RelateClosedAsDocumentedIff(a: Raw, b: Raw)
    ensures (RelateClosed(a, b).Classified? <==> Documented(a, b)) <==> !(Usable(a, b) && Negative(a, b))
  {
  }

  /** An input that is classified although its endpoints are not all above 0. */
  lemma NegativeEndpointAccepted()
    ensures RelateClosed(Raw(-2, -1), Raw(1, 2)) == Classified(BEFORE) && !Documented(Raw(-2, -1), Raw(1, 2))
  {
  }

  // ---------- open ends ----------

  const MAX: int := 0x7FFF_FFFF_FFFF_FFFF

  /** An end of 0 replaced by the given instant. */
  function Filled(a: Raw, infinity: int): Raw { if a.end == 0 then Raw(a.start, infinity) else a }

  function RelateFilled(a: Raw, b: Raw, infinity: int): Answer {
    if a.start == 0 || b.start == 0 then OpenInterval
    else
      var x, y := Filled(a, infinity), Filled(b, infinity);
      if x.start >= x.end || y.start >= y.end then InvalidInterval else Classified(Relate(x, y))
  }

  /** The code takes the largest instant for infinity. */
  function RelateOpen(a: Raw, b: Raw): Answer { RelateFilled(a, b, MAX) }

  /** Starts above 0, and each interval is non-empty with its open end filled. */
  predicate OpenDocumented(a: Raw, b: Raw) { 0 < a.start < Filled(a, MAX).end && 0 < b.start < Filled(b, MAX).end }

  /** Starts other than 0, and each interval is non-empty with its open end filled. */
  predicate OpenUsable(a: Raw, b: Raw) {
    a.start != 0 && b.start != 0 && a.start < Filled(a, MAX).end && b.start < Filled(b, MAX).end
  }

  /**
   The documented inputs are classified and, beyond them, exactly the usable ones with a negative start; swapping
   the intervals inverts the answer.
  */
  lemma RelateOpenAccepts(a: Raw, b: Raw)
    ensures RelateOpen(a, b).Classified? <==> OpenDocumented(a, b) || (OpenUsable(a, b) && (a.start < 0 || b.start < 0))
    ensures RelateOpen(a, b).Classified? ==> RelateOpen(b, a) == Classified(Inverse(RelateOpen(a, b).r))
    ensures !RelateOpen(a, b).Classified? ==> RelateOpen(b, a) == RelateOpen(a, b)
  {
    if RelateOpen(a, b).Classified? {
      InverseSwaps(Filled(a, MAX), Filled(b, MAX));
    }
  }

  /** Acceptance is as documented if and only if the input is not usable or has no negative start. */
  lemma RelateOpenAsDocumentedIff(a: Raw, b: Raw)
    ensures (RelateOpen(a, b).Classified? <==> OpenDocumented(a, b)) <==>
            !(OpenUsable(a, b) && (a.start < 0 || b.start < 0))
  {
  }

  /** An open interval with a negative start is classified. */
  lemma NegativeStartAccepted()
    ensures RelateOpen(Raw(-2, 0), Raw(1, 2)) == Classified(CONTAINS) && !OpenDocumented(Raw(-2, 0), Raw(1, 2))
  {
  }

  predicate InRange(a: Raw) { a.start <= MAX && a.end <= MAX }

  /** The answer over a time line with an infinity beyond every instant. */
  function RelateIdeal(a: Raw, b: Raw): Answer { RelateFilled(a, b, MAX + 1) }

  /** Which number stands for infinity does not matter as long as it is beyond every instant. */
  lemma AnyInfinity(a: Raw, b: Raw, infinity: int)
    requires InRange(a) && InRange(b) && infinity > MAX
    ensures RelateFilled(a, b, infinity) == RelateIdeal(a, b)
  {
    var x, y, x', y' := Filled(a, infinity), Filled(b, infinity), Filled(a, MAX + 1), Filled(b, MAX + 1);
    if x.start < x.end && y.start < y.end {
      RelateIsEndpointOrder(x, y, x', y');
    }
  }

  predicate NonEmpty(a: Raw) { a.end == 0 || a.start < a.end }

  /** An open interval that starts at the largest instant. */
  predicate StartsLast(a: Raw) { a.end == 0 && a.start == MAX }

  /** One interval is open and the other is closed at the largest instant. */
  predicate ClosedAtMax(a: Raw, b: Raw) { a.end == 0 && b.end == MAX && b.start < MAX }

  /**
   On non-empty intervals the classifier with open ends is exact if and only if no open interval starts at the
   largest instant and no open interval meets one closed there; on empty ones it always is.
  */
  lemma RelateOpenIsExactIff(a: Raw, b: Raw)
    requires InRange(a) && InRange(b) && a.start != 0 && b.start != 0
    ensures RelateOpen(a, b) == RelateIdeal(a, b) <==>
            !NonEmpty(a) || !NonEmpty(b) || !(StartsLast(a) || StartsLast(b) || ClosedAtMax(a, b) || ClosedAtMax(b, a))
  {
    var x, y, x', y' := Filled(a, MAX), Filled(b, MAX), Filled(a, MAX + 1), Filled(b, MAX + 1);
    if x.start < x.end && y.start < y.end {
      RelateIsEndpointOrder(x, y, x', y');
    }
  }

  /** Two inputs on which it is not: the first is refused, the second taken for equal. */
  lemma LargestInstantMisread()
    ensures RelateOpen(Raw(MAX, 0), Raw(1, 2)) == InvalidInterval
        && RelateIdeal(Raw(MAX, 0), Raw(1, 2)) == Classified(AFTER)
    ensures RelateOpen(Raw(5, 0), Raw(5, MAX)) == Classified(EQUALS)
        && RelateIdeal(Raw(5, 0), Raw(5, MAX)) == Classified(STARTED_BY)
  {
  }

  // ---------- the answers ----------

  /** An endpoint of 0 is reported first, then an empty interval; all other inputs are classified as they are. */
  lemma ClosedAnswers(a: Raw, b: Raw)
    ensures RelateClosed(a, b) == OpenInterval <==> a.start == 0 || a.end == 0 || b.start == 0 || b.end == 0
    ensures RelateClosed(a, b) == InvalidInterval <==>
            && a.start != 0 && a.end != 0 && b.start != 0 && b.end != 0
            && (a.end <= a.start || b.end <= b.start)
    ensures RelateClosed(a, b).Classified? ==> RelateClosed(a, b).r == Relate(a, b)
  {
  }

  /** A start of 0 is reported first; an end of 0 reads as the largest 64-bit instant. */
  lemma OpenAnswers(a: Raw, b: Raw)
    ensures RelateOpen(a, b) == OpenInterval <==> a.start == 0 || b.start == 0
    ensures a.start != 0 && b.start != 0 ==>
      var x := Raw(a.start, if a.end == 0 then 0x7FFF_FFFF_FFFF_FFFF else a.end);
      var y := Raw(b.start, if b.end == 0 then 0x7FFF_FFFF_FFFF_FFFF else b.end);
      if x.start < x.end && y.start < y.end then RelateOpen(a, b) == Classified(Relate(x, y))
      else RelateOpen(a, b) == InvalidInterval
  {
  }
}
