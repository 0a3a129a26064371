/**
 What a consumer of a column scan reads, cell by cell: the identifiers, the entry of the column's own slice, the
 null and the mark, each from the value that the row stores.
*/
module ColumnForms {
  import opened Options
  import opened Numbers
  import opened ColumnScan
  import opened ColumnRows

  // ---------- kinds ----------

  /** Cell i holds the first scalar of the column. */
  ghost predicate FirstScalar(cells: seq<Cell>, i: int) {
    0 <= i < |cells| && cells[i].Typed? && forall j :: 0 <= j < i ==> !cells[j].Typed?
  }

  /** The column's kind is that of its first scalar. */
  lemma {:induction false} FirstKindIs(cells: seq<Cell>, i: nat)
    requires FirstScalar(cells, i)
    ensures FirstKind(cells) == Some(KindOf(cells[i].v))
    decreases |cells|
  {
    var n := |cells| - 1;
    if i < n {
      FirstKindIs(cells[..n], i);
    } else if FirstKind(cells[..n]).Some? {
      var j := HasFirstScalar(cells[..n]);
    }
  }

  lemma {:induction false} HasFirstScalar(cells: seq<Cell>) returns (i: nat)
    requires FirstKind(cells).Some?
    ensures FirstScalar(cells, i)
    decreases |cells|
  {
    var n := |cells| - 1;
    if FirstKind(cells[..n]).Some? {
      i := HasFirstScalar(cells[..n]);
    } else {
      i := n;
      forall j | 0 <= j < n
        ensures !cells[j].Typed?
      {
        NoFirstKind(cells[..n], j);
      }
    }
  }

  /** The kinds of scalars. */
  lemma KindsOfScalars(v: Scalar)
    ensures (KindOf(v) == Int64 <==> v.I?) && (KindOf(v) == Kind.Float64 <==> v.F?)
    ensures (KindOf(v) == String <==> v.S?) && (KindOf(v) == Kind.Bool <==> v.B?)
  {
  }

  /** One of the two cells holds an integer and the other a float. */
  ghost predicate Differ(cells: seq<Cell>, i: int, j: int) {
    && 0 <= i < |cells| && 0 <= j < |cells| && cells[i].Typed? && cells[j].Typed?
    && ((cells[i].v.I? && cells[j].v.F?) || (cells[i].v.F? && cells[j].v.I?))
  }

  /** A column is refused if and only if its first scalar is a number and a cell holds the other kind of number. */
  lemma MixedIff(cells: seq<Cell>)
    ensures Mixed(cells) <==> exists i, j :: FirstScalar(cells, i) && Differ(cells, i, j)
  {
    if Mixed(cells) {
      var i := HasFirstScalar(cells);
      FirstKindIs(cells, i);
      var j :| 0 <= j < |cells| && cells[j].Typed? && Numeric(KindOf(cells[j].v))
          && KindOf(cells[j].v) != FirstKind(cells).value;
      assert FirstScalar(cells, i) && Differ(cells, i, j);
    }
    if i, j :| FirstScalar(cells, i) && Differ(cells, i, j) {
      FirstKindIs(cells, i);
    }
  }

  /** Batches hold 4096 rows, the last one the rest. */
  lemma BatchSizes(batches: seq<Batch>, reports: bool, rows: seq<Row>, n: nat, b: nat)
    requires Rectangular(rows, n) && BatchesOk(batches, reports, rows, n) && b < |batches|
    ensures 4096 * b < |rows|
    ensures |batches[b].ids| == if |rows| - 4096 * b > 4096 then 4096 else |rows| - 4096 * b
    ensures forall i :: 0 <= i < |batches[b].ids| ==> batches[b].ids[i] == rows[4096 * b + i].id
  {
    var all := rows[..BatchEnd(b, |rows|)];
    assert BatchOk(batches[b], reports, all, b * BATCH_ROWS, n);
    assert forall i :: 0 <= i < |all| ==> all[i] == rows[i];
  }

  // ---------- cells ----------

  /** An integer that fits 64 signed bits. */
  predicate IsInt(v: Option<Value>) {
    v.Some? && (v.value.Int? || (v.value.Uint? && v.value.u < 0x8000_0000_0000_0000))
  }

  predicate IsFloat(v: Option<Value>) {
    v.Some? && (v.value.Float32? || v.value.Float64? || (v.value.Uint? && v.value.u >= 0x8000_0000_0000_0000))
  }

  predicate IsText(v: Option<Value>) { v.Some? && v.value.Text? }

  predicate IsBool(v: Option<Value>) { v.Some? && v.value.Bool? }

  /** The value is of the column's kind. */
  predicate OfKind(v: Option<Value>, k: Kind) {
    match k case Int64 => IsInt(v) case Float64 => IsFloat(v) case String => IsText(v) case Bool => IsBool(v)
  }

  /** Which stored values become scalars, and which scalar. */
  lemma StoredCell(v: Option<Value>)
    requires v.Some? ==> Legal(v.value)
    ensures v.None? <==> CellOf(v).Missing?
    ensures v.Some? && (v.value.Nil? || v.value.Temporal? || v.value.Composite?) <==> CellOf(v).Opaque?
    ensures IsInt(v) <==> CellOf(v).Typed? && CellOf(v).v.I?
    ensures IsInt(v) ==> CellOf(v) == Typed(I(if v.value.Int? then v.value.i else v.value.u))
    ensures IsFloat(v) <==> CellOf(v).Typed? && CellOf(v).v.F?
    ensures IsFloat(v) ==> CellOf(v) == Typed(F(if v.value.Uint? then IntToFloat64(v.value.u) else v.value.f))
    ensures IsText(v) <==> CellOf(v).Typed? && CellOf(v).v.S?
    ensures IsText(v) ==> CellOf(v) == Typed(S(v.value.text))
    ensures IsBool(v) <==> CellOf(v).Typed? && CellOf(v).v.B?
    ensures IsBool(v) ==> CellOf(v) == Typed(B(v.value.b))
  {
  }

  /** The sealed column of a property: one entry, one null and, if there are marks, one mark per row. */
  ghost predicate ReadsAs(col: Column, hasOther: bool, values: seq<Option<Value>>) {
    && |col.nulls| == |values|
    && (col.kind.Int64? ==> |col.ints| == |values|) && (col.kind.Float64? ==> |col.floats| == |values|)
    && (col.kind.String? ==> |col.strs| == |values|) && (col.kind.Bool? ==> |col.bools| == |values|)
    && (if hasOther then |col.other| == |values| else col.other == [])
    && forall i :: 0 <= i < |values| ==> CellReads(col, hasOther, i, values[i])
  }

  /** Null unless the value is of the column's kind, and marked exactly if the row then holds something else. */
  ghost predicate CellReads(col: Column, hasOther: bool, i: nat, v: Option<Value>) {
    && (i < |col.nulls| ==> (col.nulls[i] <==> !OfKind(v, col.kind)))
    && (if hasOther then i < |col.other| ==> (col.other[i] <==> v.Some? && !OfKind(v, col.kind))
        else v.Some? ==> OfKind(v, col.kind))
    && EntryReads(col, i, v)
  }

  /** The entry is the stored value, or zero. */
  ghost predicate EntryReads(col: Column, i: nat, v: Option<Value>) {
    && (col.kind.Int64? && i < |col.ints| ==>
        col.ints[i] == if IsInt(v) then (if v.value.Int? then v.value.i else v.value.u) else 0)
    && (col.kind.Float64? && i < |col.floats| ==>
        col.floats[i] == if !IsFloat(v) then Fin(0) else if v.value.Uint? then IntToFloat64(v.value.u) else v.value.f)
    && (col.kind.String? && i < |col.strs| ==> col.strs[i] == if IsText(v) then v.value.text else "")
    && (col.kind.Bool? && i < |col.bools| ==> col.bools[i] == if IsBool(v) then v.value.b else false)
  }

  lemma SliceIs(col: Column, i: nat)
    requires i < |Slice(col)|
    ensures col.kind.Int64? ==> |Slice(col)| == |col.ints| && Slice(col)[i] == I(col.ints[i])
    ensures col.kind.Float64? ==> |Slice(col)| == |col.floats| && Slice(col)[i] == F(col.floats[i])
    ensures col.kind.String? ==> |Slice(col)| == |col.strs| && Slice(col)[i] == S(col.strs[i])
    ensures col.kind.Bool? ==> |Slice(col)| == |col.bools| && Slice(col)[i] == B(col.bools[i])
  {
  }

  lemma CellIsRead(col: Column, hasOther: bool, cells: seq<Cell>, i: nat, v: Option<Value>)
    requires Sealed(col, true, cells, hasOther) && i < |cells| && cells[i] == CellOf(v) && (v.Some? ==> Legal(v.value))
    ensures CellReads(col, hasOther, i, v)
  {
    StoredCell(v);
    SliceIs(col, i);
    assert Slice(col)[i] == Entry(cells[i], col.kind);
    assert HeldOutside(cells[i], col.kind) <==> v.Some? && !OfKind(v, col.kind);
  }

  lemma ColumnIsRead(col: Column, hasOther: bool, cells: seq<Cell>, values: seq<Option<Value>>)
    requires Sealed(col, true, cells, hasOther) && |values| == |cells|
    requires forall i :: 0 <= i < |cells| ==>
      cells[i] == CellOf(values[i]) && (values[i].Some? ==> Legal(values[i].value))
    ensures ReadsAs(col, hasOther, values)
  {
    forall i | 0 <= i < |values|
      ensures CellReads(col, hasOther, i, values[i])
    {
      CellIsRead(col, hasOther, cells, i, values[i]);
    }
    if |values| > 0 {
      SliceIs(col, 0);
    }
  }

  /** The values that the rows from start on store under property c. */
  ghost function ValuesOf(rows: seq<Stored>, start: nat, c: nat): seq<Option<Value>>
    requires start <= |rows| && forall i :: 0 <= i < |rows| ==> c < |rows[i].values|
  {
    seq(|rows| - start, i requires 0 <= i < |rows| - start => rows[start + i].values[c])
  }

  /** Every column of a batch is read as the values of its rows. */
  lemma BatchIsRead(b: Batch, rows: seq<Stored>, start: nat, n: nat, c: nat)
    requires Rectangular(RowsOf(rows), n) && BatchOk(b, true, RowsOf(rows), start, n) && c < n
    requires forall i :: 0 <= i < |rows| ==> |rows[i].values| == n && forall v :: Some(v) in rows[i].values ==> Legal(v)
    ensures ReadsAs(b.columns[c], b.hasOther, ValuesOf(rows, start, c))
  {
    var all := CellsOf(RowsOf(rows), c);
    assert ColumnOk(b.columns[c], true, all, start, b.hasOther);
    var cells, values := all[start..], ValuesOf(rows, start, c);
    forall i | 0 <= i < |cells|
      ensures cells[i] == CellOf(values[i]) && (values[i].Some? ==> Legal(values[i].value))
    {
      assert cells[i] == RowOf(rows[start + i]).cells[c];
      assert values[i].Some? ==> Some(values[i].value) in rows[start + i].values;
    }
    ColumnIsRead(b.columns[c], b.hasOther, cells, values);
  }
}
