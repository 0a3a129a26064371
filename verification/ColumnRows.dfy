/**
 The column scan over stored rows: every property value is classified into a column scalar on the way. What a
 column carries is compared with what the row stores, and the batches of any two drivers with each other.
*/
module ColumnRows {
  import opened Options
  import opened Dyadic
  import opened Numbers
  import opened ColumnScan

  // ---------- classification ----------

  /** The largest signed 64-bit integer. */
  const MAX_INT64: int := 0x7FFF_FFFF_FFFF_FFFF

  function ClassifyUint64(u: int): Scalar { if u <= MAX_INT64 then I(u) else F(IntToFloat64(u)) }

  /** The column scalar of a stored value, if it has one. */
  function ClassifyScalar(v: Value): Option<Scalar> {
    match v
    case Int(_, i) => Some(I(i))
    case Uint(w, u) => if w.Native? || w.W64? then Some(ClassifyUint64(u)) else Some(I(u))
    case Float32(f) => Some(F(f))
    case Float64(f) => Some(F(f))
    case Text(s) => Some(S(s))
    case Bool(b) => Some(B(b))
    case _ => None
  }

  /** The number a column scalar holds; NaN and other scalars hold none. */
  function ScalarValue(v: Scalar): Option<Exact> {
    match v
    case I(i) => Some(Finite(i * One()))
    case F(f) => ExactFloat(f)
    case _ => None
  }

  /** A large unsigned integer that no float64 holds. */
  ghost predicate Rounded(v: Value) { v.Uint? && v.u > MAX_INT64 && !IsFloat64(Fin(v.u * One())) }

  /** The column carries the stored number if and only if the value is no large unsigned integer that float64 rounds. */
  lemma ClassifiedIsExactIff(v: Value)
    requires Legal(v) && IsNumber(v)
    ensures ClassifyScalar(v).Some?
    ensures ScalarValue(ClassifyScalar(v).value) == ExactValue(v) <==> !Rounded(v)
  {
    if v.Uint? && v.u > MAX_INT64 {
      IntToFloat64ExactIff(v.u);
    }
  }

  /** Which values are column scalars, and of which kind; strings and bools are carried as they are. */
  lemma ClassifiedKinds(v: Value)
    requires Legal(v)
    ensures ClassifyScalar(v).None? <==> v.Nil? || v.Temporal? || v.Composite?
    ensures v.Text? ==> ClassifyScalar(v) == Some(S(v.text))
    ensures v.Bool? ==> ClassifyScalar(v) == Some(B(v.b))
    ensures ClassifyScalar(v).Some? && ClassifyScalar(v).value.I? ==> v.Int? || v.Uint?
    ensures ClassifyScalar(v).Some? && ClassifyScalar(v).value.F? && !v.Float32? && !v.Float64? ==>
        v.Uint? && v.u > MAX_INT64
  {
  }

  lemma OddIsNoMultiple(odd: nat, m: nat, k: nat)
    requires odd % 2 == 1 && k > 0
    ensures odd != m * Pow2(k)
  {
    assert Pow2(k) == 2 * Pow2(k - 1);
    Regroup(m, 2, Pow2(k - 1), Pow2(k));
    assert m * 2 * Pow2(k - 1) == 2 * (m * Pow2(k - 1));
  }

  // Scaled by 2^u, an odd number is no multiple of a higher power of two.
  lemma OddScaled(odd: nat, u: nat, m: nat, k: nat)
    requires odd % 2 == 1 && k > u
    ensures odd * Pow2(u) != m * Pow2(k)
  {
    var c, q := Pow2(u), m * Pow2(k - u);
    Pow2Add(k - u, u);
    Regroup(m, Pow2(k - u), c, Pow2(k));
    OddIsNoMultiple(odd, m, k - u);
    if q < odd {
      MulKeepsStrictOrder(q, odd, c);
    } else {
      MulKeepsStrictOrder(odd, q, c);
    }
  }

  // And it is too large for a significand of p bits with a smaller power.
  lemma LargeScaled(n: nat, p: nat, u: nat, m: nat, k: nat)
    requires n >= Pow2(p) && m < Pow2(p) && k <= u
    ensures m * Pow2(k) < n * Pow2(u)
  {
    if k < u {
      Pow2Grows(k, u);
    }
    MulKeepsOrder(Pow2(k), Pow2(u), m);
    MulKeepsStrictOrder(m, n, Pow2(u));
  }

  /** An odd integer of more than p bits does not fit p bits. */
  lemma OddDoesNotFit(odd: nat, p: nat, u: nat, m: nat, k: nat)
    requires odd % 2 == 1 && odd >= Pow2(p)
    ensures !FitsAs(odd * Pow2(u), p, 0, m, k)
  {
    if k > u {
      OddScaled(odd, u, m, k);
    } else if m < Pow2(p) {
      LargeScaled(odd, p, u, m, k);
    }
  }

  /** 2^63 + 1 is handed out rounded. */
  lemma LargeUintIsRounded()
    ensures var v := Uint(W64, 0x8000_0000_0000_0001);
            Legal(v) && Rounded(v) && ScalarValue(ClassifyScalar(v).value) != ExactValue(v)
  {
    var v := Uint(W64, 0x8000_0000_0000_0001);
    Pow2Of64();
    Pow2Grows(P64, 63);
    assert Pow2(64) == 2 * Pow2(63);
    forall m: nat, k: nat
      ensures !FitsAs(v.u * One(), P64, 0, m, k)
    {
      OddDoesNotFit(v.u, P64, UNIT, m, k);
    }
    ClassifiedIsExactIff(v);
  }

  // ---------- the row drivers ----------

  /** A row's identity and, per requested property, what it stores. */
  datatype Stored = Stored(id: int, values: seq<Option<Value>>)

  /** A property that is missing, holds no column scalar, or holds one. */
  function CellOf(v: Option<Value>): Cell {
    if v.None? then Missing else if ClassifyScalar(v.value).None? then Opaque else Typed(ClassifyScalar(v.value).value)
  }

  function RowOf(r: Stored): (row: Row)
    ensures row.id == r.id && |row.cells| == |r.values|
  {
    Row(r.id, seq(|r.values|, c requires 0 <= c < |r.values| => CellOf(r.values[c])))
  }

  ghost function RowsOf(rows: seq<Stored>): seq<Row> { seq(|rows|, i requires 0 <= i < |rows| => RowOf(rows[i])) }

  /** Reads a row's properties one by one, classifying each. */
  method ReadRow(r: Stored) returns (row: Row)
    ensures row == RowOf(r)
  {
    var cells: seq<Cell> := [];
    for c := 0 to |r.values|
      invariant |cells| == c && forall d :: 0 <= d < c ==> cells[d] == CellOf(r.values[d])
    {
      var found := r.values[c];
      if found.None? {
        cells := cells + [Missing];
      } else {
        var scalar := ClassifyScalar(found.value);
        cells := cells + [if scalar.None? then Opaque else Typed(scalar.value)];
      }
    }
    row := Row(r.id, cells);
  }

  /** The scan over stored rows, which always reports cells held outside their column. */
  method ScanStored(rows: seq<Stored>, n: nat, keep: nat -> bool) returns (batches: seq<Batch>, mixed: bool)
    requires Rectangular(RowsOf(rows), n)
    ensures BatchesOk(batches, true, RowsOf(rows), n)
    ensures forall b :: 0 <= b < |batches| - 1 ==> keep(b)
    ensures mixed ==> forall b :: 0 <= b < |batches| ==> keep(b)
    ensures mixed ==> exists c :: 0 <= c < n && Mixed(CellsOf(RowsOf(rows), c))
    ensures !mixed ==>
      || (|batches| == (|rows| + BATCH_ROWS - 1) / BATCH_ROWS && forall c :: 0 <= c < n ==>
          !Mixed(CellsOf(RowsOf(rows), c)))
      || (0 < |batches| && |batches| * BATCH_ROWS <= |rows| && !keep(|batches| - 1))
  {
    ghost var all := RowsOf(rows);
    batches, mixed := [], false;
    var s := Start(n, true);
    assert all[..0] == [];
    for i := 0 to |rows|
      invariant Scanned(s, batches, true, all, i, n) && !mixed
      invariant forall b :: 0 <= b < |batches| ==> keep(b)
    {
      var handedOut := |batches|;
      var row := ReadRow(rows[i]);
      s, batches, mixed := ScanRow(s, batches, true, row, all, i, n);
      if mixed {
        return;
      }
      if |batches| > handedOut && !keep(handedOut) {
        return;
      }
    }
    batches := Finish(s, batches, true, all, n);
  }

  // ---------- all drivers agree ----------

  /** The columns show the same: kind, values, nulls and marks. */
  ghost predicate SameColumn(x: Column, y: Column) {
    x.kind == y.kind && Slice(x) == Slice(y) && x.nulls == y.nulls && x.other == y.other
  }

  ghost predicate SameBatch(x: Batch, y: Batch) {
    && x.ids == y.ids && x.hasOther == y.hasOther && |x.columns| == |y.columns|
    && forall c :: 0 <= c < |x.columns| ==> SameColumn(x.columns[c], y.columns[c])
  }

  lemma ColumnDetermined(x: Column, y: Column, reports: bool, all: seq<Cell>, start: nat, hasOther: bool)
    requires ColumnOk(x, reports, all, start, hasOther) && ColumnOk(y, reports, all, start, hasOther)
    ensures SameColumn(x, y)
  {
  }

  // Marks are allocated only where the rows call for one.
  lemma OtherDetermined(x: Batch, y: Batch, reports: bool, rows: seq<Row>, start: nat, n: nat)
    requires Rectangular(rows, n) && BatchOk(x, reports, rows, start, n) && BatchOk(y, reports, rows, start, n)
    ensures x.hasOther ==> y.hasOther
  {
    if x.hasOther {
      var c, i :| 0 <= c < |x.columns| && 0 <= i < |x.columns[c].other| && x.columns[c].other[i];
      var cells := CellsOf(rows, c)[start..];
      assert ColumnOk(x.columns[c], reports, CellsOf(rows, c), start, x.hasOther);
      assert ColumnOk(y.columns[c], reports, CellsOf(rows, c), start, y.hasOther);
      assert reports && HeldOutside(cells[i], x.columns[c].kind);
    }
  }

  lemma BatchDetermined(x: Batch, y: Batch, reports: bool, rows: seq<Row>, start: nat, n: nat)
    requires Rectangular(rows, n) && BatchOk(x, reports, rows, start, n) && BatchOk(y, reports, rows, start, n)
    ensures SameBatch(x, y)
  {
    OtherDetermined(x, y, reports, rows, start, n);
    OtherDetermined(y, x, reports, rows, start, n);
    forall c | 0 <= c < n
      ensures SameColumn(x.columns[c], y.columns[c])
    {
      ColumnDetermined(x.columns[c], y.columns[c], reports, CellsOf(rows, c), start, x.hasOther);
    }
  }

  /** Whichever drivers produced them, two lists of batches of the same rows agree batch by batch. */
  lemma DriversAgree(xs: seq<Batch>, ys: seq<Batch>, reports: bool, rows: seq<Row>, n: nat, b: nat)
    requires Rectangular(rows, n) && BatchesOk(xs, reports, rows, n) && BatchesOk(ys, reports, rows, n)
    requires b < |xs| && b < |ys|
    ensures SameBatch(xs[b], ys[b])
  {
    BatchDetermined(xs[b], ys[b], reports, rows[..BatchEnd(b, |rows|)], b * BATCH_ROWS, n);
  }

  /** A source that does not report cells held outside hands out the same columns without marks. */
  lemma UnreportedAgrees(x: Batch, y: Batch, rows: seq<Row>, start: nat, n: nat, c: nat)
    requires Rectangular(rows, n) && BatchOk(x, true, rows, start, n) && BatchOk(y, false, rows, start, n) && c < n
    ensures x.ids == y.ids && !y.hasOther
    ensures x.columns[c].kind == y.columns[c].kind && Slice(x.columns[c]) == Slice(y.columns[c])
        && x.columns[c].nulls == y.columns[c].nulls
  {
    assert ColumnOk(x.columns[c], true, CellsOf(rows, c), start, x.hasOther);
    assert ColumnOk(y.columns[c], false, CellsOf(rows, c), start, y.hasOther);
    forall d, i | 0 <= d < |y.columns| && 0 <= i < |y.columns[d].other|
      ensures !y.columns[d].other[i]
    {
      assert ColumnOk(y.columns[d], false, CellsOf(rows, d), start, y.hasOther);
    }
  }

  // ---------- what a consumer reads ----------

  /** A cell that is not null carries the stored number, unless float64 rounds it. */
  lemma CarriedIsStored(col: Column, reports: bool, cells: seq<Cell>, hasOther: bool, i: nat, v: Value)
    requires Sealed(col, reports, cells, hasOther) && i < |cells| && cells[i] == CellOf(Some(v)) && Legal(v)
        && IsNumber(v) && !col.nulls[i]
    ensures |Slice(col)| == |cells| && (ScalarValue(Slice(col)[i]) == ExactValue(v) <==> !Rounded(v))
  {
    ClassifiedIsExactIff(v);
  }
}
