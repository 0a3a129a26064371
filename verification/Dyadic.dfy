/**
 Exact binary floating point.

 Every finite float32 and float64 is an integer multiple of 2^-1074, so a finite value v is
 represented by the integer v * 2^1074. The representable sets are then the integers m * 2^k with
 bounded m and k (section 3.3 of IEEE 754-2019), and comparisons are comparisons of integers.
*/
module Dyadic {

  // ---------- powers of two ----------

  function Pow2(n: nat): (p: nat)
    ensures p > 0
  {
    if n == 0 then 1 else 2 * Pow2(n - 1)
  }

  lemma {:induction false} Pow2Add(a: nat, b: nat)
    ensures Pow2(a + b) == Pow2(a) * Pow2(b)
  {
    if a > 0 {
      Pow2Add(a - 1, b);
      assert Pow2(a + b) == 2 * Pow2(a - 1 + b);
    }
  }

  lemma {:induction false} Pow2Grows(a: nat, b: nat)
    requires a < b
    ensures 2 * Pow2(a) <= Pow2(b)
    decreases b
  {
    if a + 1 < b {
      Pow2Grows(a, b - 1);
    }
  }

  lemma MulKeepsOrder(x: int, y: int, c: int)
    requires x <= y && c >= 0
    ensures x * c <= y * c
  {
  }

  lemma MulKeepsStrictOrder(x: int, y: int, c: int)
    requires c > 0
    ensures x < y <==> x * c < y * c
    ensures x == y <==> x * c == y * c
  {
    if x < y {
      MulKeepsOrder(x + 1, y, c);
    } else if y < x {
      MulKeepsOrder(y + 1, x, c);
    }
  }

  lemma ExactQuotient(m: int, d: int)
    requires d > 0
    ensures (m * d) / d == m && (m * d) % d == 0
  {
    var q, r := (m * d) / d, (m * d) % d;
    assert m * d == q * d + r;
    assert (m - q) * d == r;
    if m - q >= 1 {
      MulKeepsOrder(1, m - q, d);
    } else if m - q <= -1 {
      MulKeepsOrder(m - q, -1, d);
    }
  }

  lemma QuotientBelow(n: nat, d: nat, c: nat)
    requires d > 0 && n < c * d
    ensures n / d < c
  {
    var q, r := n / d, n % d;
    assert n == q * d + r;
    if q >= c {
      MulKeepsOrder(c, q, d);
    }
  }

  // ---------- bit length ----------

  function BitLen(n: nat): nat {
    if n == 0 then 0 else 1 + BitLen(n / 2)
  }

  lemma {:induction false} BitLenBounds(n: nat)
    ensures n < Pow2(BitLen(n))
    ensures n > 0 ==> BitLen(n) > 0 && Pow2(BitLen(n) - 1) <= n
  {
    if n > 0 {
      BitLenBounds(n / 2);
    }
  }

  // ---------- rounding ----------

  /** n / 2^s rounded to the nearest integer, ties to even. */
  function RoundShift(n: nat, s: nat): nat {
    var d := Pow2(s);
    var q, r := n / d, n % d;
    if 2 * r > d || (2 * r == d && q % 2 == 1) then q + 1 else q
  }

  /** How many low bits of n a significand of p bits with least exponent kmin drops. */
  function Dropped(n: nat, p: nat, kmin: nat): nat {
    if BitLen(n) > p + kmin then BitLen(n) - p else kmin
  }

  /** n rounded to p significant bits and to a multiple of 2^kmin. */
  function RoundTo(n: nat, p: nat, kmin: nat): nat {
    var s := Dropped(n, p, kmin);
    RoundShift(n, s) * Pow2(s)
  }

  /** n == m * 2^k with m below 2^p and k at least kmin. */
  ghost predicate Fits(n: nat, p: nat, kmin: nat) {
    exists m: nat, k: nat :: FitsAs(n, p, kmin, m, k)
  }

  ghost predicate FitsAs(n: nat, p: nat, kmin: nat, m: nat, k: nat) {
    m < Pow2(p) && k >= kmin && n == m * Pow2(k)
  }

  lemma RoundShiftExact(n: nat, s: nat, m: nat)
    requires n == m * Pow2(s)
    ensures RoundShift(n, s) == m
  {
    ExactQuotient(m, Pow2(s));
  }

  // A value that fits loses no bit: what rounding drops is zero.
  lemma FitsKeepsBits(n: nat, p: nat, kmin: nat, m: nat, k: nat)
    requires FitsAs(n, p, kmin, m, k)
    ensures n == 0 || k >= Dropped(n, p, kmin)
  {
    var s := Dropped(n, p, kmin);
    if n > 0 && k < s {
      // n >= 2^(s+p-1), but m * 2^k < 2^(p+k) <= 2^(p+s-1).
      BitLenBounds(n);
      MulKeepsStrictOrder(m, Pow2(p), Pow2(k));
      Pow2Add(p, k);
      if p + k < BitLen(n) - 1 {
        Pow2Grows(p + k, BitLen(n) - 1);
      }
    }
  }

  lemma Regroup(a: nat, b: nat, c: nat, bc: nat)
    requires bc == b * c
    ensures a * bc == (a * b) * c
  {
  }

  lemma RoundShiftBelow(n: nat, s: nat, c: nat)
    requires n < c * Pow2(s)
    ensures RoundShift(n, s) <= c
  {
    QuotientBelow(n, Pow2(s), c);
  }

  lemma ReachesPast(n: nat, p: nat, kmin: nat)
    ensures n < Pow2(p) * Pow2(Dropped(n, p, kmin))
  {
    var s := Dropped(n, p, kmin);
    BitLenBounds(n);
    Pow2Add(p, s);
    if BitLen(n) < p + s {
      Pow2Grows(BitLen(n), p + s);
    }
  }

  lemma RoundToExact(n: nat, p: nat, kmin: nat, m: nat)
    requires n == m * Pow2(Dropped(n, p, kmin))
    ensures RoundTo(n, p, kmin) == n
  {
    RoundShiftExact(n, Dropped(n, p, kmin), m);
  }

  // A value that fits is a multiple of what rounding keeps.
  lemma FitsIsExact(n: nat, p: nat, kmin: nat, m: nat, k: nat)
    requires FitsAs(n, p, kmin, m, k)
    ensures RoundTo(n, p, kmin) == n
  {
    var s := Dropped(n, p, kmin);
    if n == 0 {
      RoundToExact(0, p, kmin, 0);
    } else {
      FitsKeepsBits(n, p, kmin, m, k);
      Pow2Add(k - s, s);
      Regroup(m, Pow2(k - s), Pow2(s), Pow2(k));
      RoundToExact(n, p, kmin, m * Pow2(k - s));
    }
  }

  lemma TopFits(n: nat, s: nat, p: nat, kmin: nat)
    requires n == Pow2(p) * Pow2(s) && p > 0 && s >= kmin
    ensures Fits(n, p, kmin)
  {
    Pow2Add(p, s);
    Pow2Add(p - 1, s + 1);
    var h := Pow2(p - 1);
    assert h < Pow2(p);
    assert FitsAs(n, p, kmin, h, s + 1);
  }

  lemma MultipleFits(n: nat, q: nat, s: nat, p: nat, kmin: nat)
    requires n == q * Pow2(s) && q <= Pow2(p) && p > 0 && s >= kmin
    ensures Fits(n, p, kmin)
  {
    if q < Pow2(p) {
      assert FitsAs(n, p, kmin, q, s);
    } else {
      TopFits(n, s, p, kmin);
    }
  }

  lemma RoundToFits(n: nat, p: nat, kmin: nat)
    requires p > 0
    ensures Fits(RoundTo(n, p, kmin), p, kmin)
  {
    var s := Dropped(n, p, kmin);
    ReachesPast(n, p, kmin);
    RoundShiftBelow(n, s, Pow2(p));
    MultipleFits(RoundTo(n, p, kmin), RoundShift(n, s), s, p, kmin);
  }

  /** Rounding is exact precisely on the values that fit. */
  lemma RoundingExactIffFits(n: nat, p: nat, kmin: nat)
    requires p > 0
    ensures RoundTo(n, p, kmin) == n <==> Fits(n, p, kmin)
  {
    RoundToFits(n, p, kmin);
    if Fits(n, p, kmin) {
      var m: nat, k: nat :| FitsAs(n, p, kmin, m, k);
      FitsIsExact(n, p, kmin, m, k);
    }
  }

  /** Rounding a multiple of 2^u gives a multiple of 2^u. */
  lemma RoundingKeepsMultiples(m: nat, u: nat, p: nat, kmin: nat) returns (m': nat)
    ensures RoundTo(m * Pow2(u), p, kmin) == m' * Pow2(u)
  {
    var n := m * Pow2(u);
    var s := Dropped(n, p, kmin);
    if s <= u {
      Pow2Add(u - s, s);
      Regroup(m, Pow2(u - s), Pow2(s), Pow2(u));
      RoundToExact(n, p, kmin, m * Pow2(u - s));
      m' := m;
    } else {
      Pow2Add(s - u, u);
      Regroup(RoundShift(n, s), Pow2(s - u), Pow2(u), Pow2(s));
      m' := RoundShift(n, s) * Pow2(s - u);
    }
  }

  // ---------- rounding is to nearest, ties to even ----------

  function Distance(a: nat, b: nat): nat { if a < b then b - a else a - b }

  lemma MultiplesApart(q: nat, c: nat, d: nat)
    ensures c < q ==> c * d <= q * d - d
    ensures c > q ==> c * d >= q * d + d
    ensures c > q + 1 ==> c * d >= q * d + 2 * d
  {
    if c < q {
      MulKeepsOrder(c + 1, q, d);
      assert (c + 1) * d == c * d + d;
    } else if c > q {
      MulKeepsOrder(q + 1, c, d);
      assert (q + 1) * d == q * d + d;
      if c > q + 1 {
        MulKeepsOrder(q + 2, c, d);
        assert (q + 2) * d == q * d + 2 * d;
      }
    }
  }

  // Rounding down, to n - r, when that is near enough.
  lemma DownIsNearest(n: nat, q: nat, r: nat, d: nat, c: nat)
    requires n == q * d + r && r < d && (2 * r < d || (2 * r == d && q % 2 == 0))
    ensures Distance(q * d, n) <= Distance(c * d, n)
    ensures Distance(q * d, n) == Distance(c * d, n) && c != q ==> q % 2 == 0 && c % 2 == 1
  {
    MultiplesApart(q, c, d);
  }

  lemma UpIsNearest(n: nat, q: nat, r: nat, d: nat, c: nat)
    requires n == q * d + r && r < d && (2 * r > d || (2 * r == d && q % 2 == 1))
    ensures Distance((q + 1) * d, n) <= Distance(c * d, n)
    ensures Distance((q + 1) * d, n) == Distance(c * d, n) && c != q + 1 ==> (q + 1) % 2 == 0 && c % 2 == 1
  {
    MultiplesApart(q, c, d);
    assert (q + 1) * d == q * d + d;
  }

  lemma Divided(n: nat, d: nat) returns (q: nat, r: nat)
    requires d > 0
    ensures q == n / d && r == n % d && n == q * d + r && r < d
  {
    q, r := n / d, n % d;
  }

  lemma RoundedEitherWay(n: nat, s: nat) returns (q: nat, r: nat, up: bool)
    ensures n == q * Pow2(s) + r && r < Pow2(s) && RoundShift(n, s) == if up then q + 1 else q
    ensures if up then 2 * r > Pow2(s) || (2 * r == Pow2(s) && q % 2 == 1)
            else 2 * r < Pow2(s) || (2 * r == Pow2(s) && q % 2 == 0)
  {
    q, r := Divided(n, Pow2(s));
    up := 2 * r > Pow2(s) || (2 * r == Pow2(s) && q % 2 == 1);
  }

  // Of the multiples of 2^s, the rounded one is nearest.
  lemma NearestMultiple(n: nat, s: nat, c: nat)
    ensures var d, q := Pow2(s), RoundShift(n, s);
            && Distance(q * d, n) <= Distance(c * d, n)
            && (Distance(q * d, n) == Distance(c * d, n) && c != q ==> q % 2 == 0 && c % 2 == 1)
  {
    var q, r, up := RoundedEitherWay(n, s);
    if up {
      UpIsNearest(n, q, r, Pow2(s), c);
    } else {
      DownIsNearest(n, q, r, Pow2(s), c);
    }
  }

  // A representable number that is no multiple of the step lies below the step's range and is farther away.
  lemma FinerIsFarther(n: nat, p: nat, kmin: nat, m: nat, k: nat)
    requires p > 0 && m < Pow2(p) && kmin <= k < Dropped(n, p, kmin)
    ensures Distance(RoundTo(n, p, kmin), n) < Distance(m * Pow2(k), n)
  {
    var s := Dropped(n, p, kmin);
    BitLenBounds(n);
    Pow2Add(p - 1, s);
    NearestMultiple(n, s, Pow2(p - 1));
    BelowTop(p, s, m, k);
  }

  lemma BelowTop(p: nat, s: nat, m: nat, k: nat)
    requires p > 0 && m < Pow2(p) && k < s
    ensures m * Pow2(k) < Pow2(p - 1 + s)
  {
    MulKeepsStrictOrder(m, Pow2(p), Pow2(k));
    Pow2Add(p, k);
    if p + k < p - 1 + s {
      Pow2Grows(p + k, p - 1 + s);
    }
  }

  /** No representable number is nearer than the rounded one. */
  lemma RoundedIsNearest(n: nat, p: nat, kmin: nat, x: nat)
    requires p > 0 && Fits(x, p, kmin)
    ensures Distance(RoundTo(n, p, kmin), n) <= Distance(x, n)
  {
    var m: nat, k: nat :| FitsAs(x, p, kmin, m, k);
    var s := Dropped(n, p, kmin);
    if k < s {
      FinerIsFarther(n, p, kmin, m, k);
    } else {
      var c := AsMultiple(x, m, k, s);
      NearestMultiple(n, s, c);
    }
  }

  lemma AsMultiple(x: nat, m: nat, k: nat, s: nat) returns (c: nat)
    requires x == m * Pow2(k) && s <= k
    ensures x == c * Pow2(s)
  {
    Pow2Add(k - s, s);
    Regroup(m, Pow2(k - s), Pow2(s), Pow2(k));
    c := m * Pow2(k - s);
  }

  /** Of two that are equally near, the even multiple of their common step is taken. */
  lemma TiesToEven(n: nat, p: nat, kmin: nat, x: nat) returns (even: nat, odd: nat, s: nat)
    requires p > 0 && Fits(x, p, kmin) && x != RoundTo(n, p, kmin)
    requires Distance(RoundTo(n, p, kmin), n) == Distance(x, n)
    ensures RoundTo(n, p, kmin) == even * Pow2(s) && x == odd * Pow2(s) && even % 2 == 0 && odd % 2 == 1
  {
    var m: nat, k: nat :| FitsAs(x, p, kmin, m, k);
    s := Dropped(n, p, kmin);
    even, odd := RoundShift(n, s), 1;
    if k < s {
      FinerIsFarther(n, p, kmin, m, k);
    } else {
      odd := AsMultiple(x, m, k, s);
      NearestMultiple(n, s, odd);
    }
  }
}
