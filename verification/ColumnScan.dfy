/**
 Building typed column batches from rows. The builder reuses one set of buffers, learns each column's kind
 from its first scalar and pads what came before; what it hands out is proved to be a plain function of the
 rows of each batch.
*/
module ColumnScan {
  import opened Options
  import N = Numbers

  datatype Kind = Int64 | Float64 | String | Bool

  datatype Scalar = I(i: int) | F(f: N.Float) | S(s: string) | B(b: bool)

  /** What a row holds under a property: nothing, a value that is no column scalar, or a scalar. */
  datatype Cell = Missing | Opaque | Typed(v: Scalar)

  datatype Row = Row(id: int, cells: seq<Cell>)

  /** The buffers of one column. */
  datatype Column = Column(
    kind: Kind, ints: seq<int>, floats: seq<N.Float>, strs: seq<string>, bools: seq<bool>, nulls: seq<bool>,
    other: seq<bool>)

  /** A batch as the callback sees it; other is absent when no cell of the batch is held outside its column. */
  datatype Batch = Batch(ids: seq<int>, columns: seq<Column>, hasOther: bool)

  const BATCH_ROWS: nat := 4096

  function KindOf(v: Scalar): Kind {
    match v case I(_) => Int64 case F(_) => Float64 case S(_) => String case B(_) => Bool
  }

  predicate Numeric(k: Kind) { k.Int64? || k.Float64? }

  function Zero(k: Kind): Scalar {
    match k case Int64 => I(0) case Float64 => F(N.Fin(0)) case String => S("") case Bool => B(false)
  }

  // ---------- what a batch should hold ----------

  /** The cell's value travels in a column of this kind. */
  predicate Carried(cell: Cell, k: Kind) { cell.Typed? && KindOf(cell.v) == k }

  /** The row holds the property, but not in the column. */
  predicate HeldOutside(cell: Cell, k: Kind) { cell.Opaque? || (cell.Typed? && KindOf(cell.v) != k) }

  /** The typed entry of a cell: its value, or the zero of the column's kind. */
  function Entry(cell: Cell, k: Kind): Scalar { if Carried(cell, k) then cell.v else Zero(k) }

  /** The kind of the first scalar. */
  function FirstKind(cells: seq<Cell>): Option<Kind> {
    if cells == [] then None
    else
      var before := FirstKind(cells[..|cells| - 1]);
      if before.Some? then before
      else if cells[|cells| - 1].Typed? then Some(KindOf(cells[|cells| - 1].v))
      else None
  }

  /** Two numeric kinds meet: the first scalar is numeric and a later one is of the other numeric kind. */
  ghost predicate Mixed(cells: seq<Cell>) {
    FirstKind(cells).Some? && Numeric(FirstKind(cells).value) &&
    exists i :: 0 <= i < |cells| && cells[i].Typed? && Numeric(KindOf(cells[i].v))
        && KindOf(cells[i].v) != FirstKind(cells).value
  }

  // ---------- the typed slice ----------

  /** The slice that the kind selects. */
  function Slice(col: Column): seq<Scalar> {
    match col.kind
    case Int64 => seq(|col.ints|, i requires 0 <= i < |col.ints| => I(col.ints[i]))
    case Float64 => seq(|col.floats|, i requires 0 <= i < |col.floats| => F(col.floats[i]))
    case String => seq(|col.strs|, i requires 0 <= i < |col.strs| => S(col.strs[i]))
    case Bool => seq(|col.bools|, i requires 0 <= i < |col.bools| => B(col.bools[i]))
  }

  /** Appends to the slice of the value's kind. */
  function Push(col: Column, v: Scalar): (r: Column)
    ensures KindOf(v) == col.kind ==> Slice(r) == Slice(col) + [v]
    ensures r.kind == col.kind && r.nulls == col.nulls && r.other == col.other
  {
    match v
    case I(i) => col.(ints := col.ints + [i])
    case F(f) => col.(floats := col.floats + [f])
    case S(s) => col.(strs := col.strs + [s])
    case B(b) => col.(bools := col.bools + [b])
  }

  predicate NoSlices(col: Column) { col.ints == [] && col.floats == [] && col.strs == [] && col.bools == [] }

  function AppendAbsent(col: Column, known: bool): Column {
    var c := col.(nulls := col.nulls + [true]);
    if known then Push(c, Zero(col.kind)) else c
  }

  /** Pads the typed slice with zeros. */
  method AlignTyped(col: Column, rows: nat) returns (r: Column)
    requires |Slice(col)| <= rows
    ensures Slice(r) == Slice(col) + seq(rows - |Slice(col)|, _ => Zero(col.kind))
    ensures r.kind == col.kind && r.nulls == col.nulls && r.other == col.other
  {
    r := col;
    while |Slice(r)| < rows
      invariant |Slice(col)| <= |Slice(r)| <= rows
          && Slice(r) == Slice(col) + seq(|Slice(r)| - |Slice(col)|, _ => Zero(col.kind))
      invariant r.kind == col.kind && r.nulls == col.nulls && r.other == col.other
      decreases rows - |Slice(r)|
    {
      r := Push(r, Zero(r.kind));
    }
  }

  function PadOther(other: seq<bool>, rows: nat): seq<bool> {
    if |other| >= rows then other else other + seq(rows - |other|, _ => false)
  }

  function MarkOther(col: Column, row: nat): Column {
    col.(other := PadOther(col.other, row + 1)[row := true])
  }

  // ---------- one column of a batch in progress ----------

  /** After the given cells of the batch. */
  ghost predicate Building(col: Column, known: bool, cells: seq<Cell>) {
    && |col.nulls| == |cells|
    && (forall i :: 0 <= i < |cells| ==> (col.nulls[i] <==> !Carried(cells[i], col.kind)))
    && (known ==> |Slice(col)| == |cells| && forall i :: 0 <= i < |cells| ==>
        Slice(col)[i] == Entry(cells[i], col.kind))
    && (!known ==> NoSlices(col) && forall i :: 0 <= i < |cells| ==> !cells[i].Typed?)
  }

  /** The marks made so far; rows beyond the marks are not held outside. */
  ghost predicate Marked(col: Column, reports: bool, cells: seq<Cell>) {
    && |col.other| <= |cells|
    && forall i :: 0 <= i < |cells| ==> ((i < |col.other| && col.other[i])
        <==> reports && HeldOutside(cells[i], col.kind))
  }

  /** Kind and knowledge follow from all cells so far, in this batch and before. */
  ghost predicate Learned(col: Column, known: bool, all: seq<Cell>) {
    && known == FirstKind(all).Some?
    && col.kind == (if known then FirstKind(all).value else Int64)
    && !Mixed(all)
  }

  /** A column after all cells, of which those from start on belong to the batch. */
  ghost predicate Ready(col: Column, known: bool, reports: bool, all: seq<Cell>, start: nat) {
    start <= |all| && Learned(col, known, all) && Building(col, known, all[start..])
        && Marked(col, reports, all[start..])
  }

  lemma FirstKindSnoc(all: seq<Cell>, cell: Cell)
    ensures FirstKind(all + [cell]) == if FirstKind(all).Some? then FirstKind(all)
        else if cell.Typed? then Some(KindOf(cell.v)) else None
  {
    assert (all + [cell])[..|all|] == all;
  }

  lemma {:induction false} NoFirstKind(all: seq<Cell>, i: nat)
    requires FirstKind(all).None? && i < |all|
    ensures !all[i].Typed?
    decreases |all|
  {
    if i < |all| - 1 {
      NoFirstKind(all[..|all| - 1], i);
    }
  }

  /** The next cell clashes: numbers of the two kinds meet. */
  predicate Clashes(col: Column, known: bool, cell: Cell) {
    known && cell.Typed? && KindOf(cell.v) != col.kind && Numeric(KindOf(cell.v)) && Numeric(col.kind)
  }

  lemma MixedSnoc(col: Column, known: bool, all: seq<Cell>, cell: Cell)
    requires Learned(col, known, all)
    ensures Mixed(all + [cell]) <==> Clashes(col, known, cell)
  {
    FirstKindSnoc(all, cell);
    var more := all + [cell];
    if Clashes(col, known, cell) {
      assert more[|all|] == cell;
    }
    if Mixed(more) {
      var i :| 0 <= i < |more| && more[i].Typed? && Numeric(KindOf(more[i].v))
          && KindOf(more[i].v) != FirstKind(more).value;
      if i < |all| {
        assert more[i] == all[i];
        if FirstKind(all).None? {
          NoFirstKind(all, i);
        }
      }
    }
  }

  lemma AbsentBuilds(col: Column, known: bool, cells: seq<Cell>, cell: Cell)
    requires Building(col, known, cells) && !Carried(cell, col.kind) && (known || !cell.Typed?)
    ensures Building(AppendAbsent(col, known), known, cells + [cell])
  {
  }

  lemma ValueBuilds(col: Column, cells: seq<Cell>, cell: Cell)
    requires Building(col, true, cells) && Carried(cell, col.kind)
    ensures Building(Push(col.(nulls := col.nulls + [false]), cell.v), true, cells + [cell])
  {
  }

  // Once the kind is learned, the padded slice stands for the earlier cells, none of which holds a scalar.
  lemma PaddedBuilds(col: Column, r: Column, cells: seq<Cell>)
    requires Building(col, false, cells) && r.nulls == col.nulls && Slice(r) == seq(|cells|, _ => Zero(r.kind))
    ensures Building(r, true, cells)
  {
  }

  lemma MarkedPlain(col: Column, r: Column, reports: bool, cells: seq<Cell>, cell: Cell)
    requires Marked(col, reports, cells) && r.other == col.other && r.kind == col.kind && !(reports
        && HeldOutside(cell, r.kind))
    ensures Marked(r, reports, cells + [cell])
  {
  }

  lemma MarkedOutside(col: Column, r: Column, cells: seq<Cell>, cell: Cell)
    requires Marked(col, true, cells) && r.other == col.other && r.kind == col.kind && HeldOutside(cell, r.kind)
    ensures Marked(MarkOther(r, |cells|), true, cells + [cell])
  {
    var other, more := MarkOther(r, |cells|).other, cells + [cell];
    assert |other| == |more|;
    forall i | 0 <= i < |more|
      ensures other[i] <==> HeldOutside(more[i], r.kind)
    {
      if i < |cells| {
        assert more[i] == cells[i];
        assert other[i] <==> i < |col.other| && col.other[i];
      }
    }
  }

  // Marks do not depend on the kind while no cell holds a scalar.
  lemma MarkedAnyKind(col: Column, r: Column, reports: bool, cells: seq<Cell>)
    requires Marked(col, reports, cells) && r.other == col.other && forall i :: 0 <= i < |cells| ==> !cells[i].Typed?
    ensures Marked(r, reports, cells)
  {
  }

  lemma MarkingBuilds(col: Column, known: bool, cells: seq<Cell>, row: nat)
    requires Building(col, known, cells)
    ensures Building(MarkOther(col, row), known, cells) && MarkOther(col, row).kind == col.kind
  {
    assert Slice(MarkOther(col, row)) == Slice(col);
  }

  /** Earlier marks stay; the cell adds one exactly when it is held outside. */
  ghost predicate MarksKept(col: Column, r: Column, outside: bool) {
    if outside then col.other <= r.other && |r.other| > 0 && r.other[|r.other| - 1] else r.other == col.other
  }

  /** An absent entry, marked if the row holds the property outside the column. */
  method AddAbsent(col: Column, known: bool, reports: bool, cell: Cell, ghost cells: seq<Cell>)
      returns (r: Column, outside: bool)
    requires Building(col, known, cells) && Marked(col, reports, cells) && !Carried(cell, col.kind)
        && (known || !cell.Typed?)
    ensures r.kind == col.kind && Building(r, known, cells + [cell]) && Marked(r, reports, cells + [cell])
    ensures outside <==> reports && HeldOutside(cell, r.kind)
    ensures MarksKept(col, r, outside)
  {
    r := AppendAbsent(col, known);
    outside := reports && !cell.Missing?;
    AbsentBuilds(col, known, cells, cell);
    if outside {
      MarkedOutside(col, r, cells, cell);
      MarkingBuilds(r, known, cells + [cell], |cells|);
      r := MarkOther(r, |col.nulls|);
    } else {
      MarkedPlain(col, r, reports, cells, cell);
    }
  }

  /** How a column grows by one cell that does not clash. */
  method AddCell(col: Column, known: bool, reports: bool, cell: Cell, ghost cells: seq<Cell>)
      returns (r: Column, outside: bool)
    requires Building(col, known, cells) && Marked(col, reports, cells) && !Clashes(col, known, cell)
    ensures r.kind == (if !known && cell.Typed? then KindOf(cell.v) else col.kind)
    ensures Building(r, known || cell.Typed?, cells + [cell]) && Marked(r, reports, cells + [cell])
    ensures outside <==> reports && HeldOutside(cell, r.kind)
    ensures MarksKept(col, r, outside)
  {
    if !cell.Typed? {
      r, outside := AddAbsent(col, known, reports, cell, cells);
      return;
    }
    var mid := col;
    if !known {
      mid := AlignTyped(col.(kind := KindOf(cell.v)), |col.nulls|);
      PaddedBuilds(col, mid, cells);
      MarkedAnyKind(col, mid, reports, cells);
    }
    if mid.kind != KindOf(cell.v) {
      r, outside := AddAbsent(mid, true, reports, cell, cells);
      return;
    }
    ValueBuilds(mid, cells, cell);
    r, outside := Push(mid.(nulls := mid.nulls + [false]), cell.v), false;
    MarkedPlain(mid, r, reports, cells, cell);
  }

  // ---------- rows and batches ----------

  ghost predicate Rectangular(rows: seq<Row>, n: nat) { forall i :: 0 <= i < |rows| ==> |rows[i].cells| == n }

  ghost function CellsOf(rows: seq<Row>, c: nat): seq<Cell>
    requires forall i :: 0 <= i < |rows| ==> c < |rows[i].cells|
  {
    seq(|rows|, i requires 0 <= i < |rows| => rows[i].cells[c])
  }

  /** All columns after the given rows, of which those from start on belong to the batch. */
  ghost predicate AllReady(cols: seq<Column>, known: seq<bool>, reports: bool, rows: seq<Row>, start: nat, n: nat)
    requires Rectangular(rows, n)
  {
    |cols| == |known| == n && forall c :: 0 <= c < n ==> Ready(cols[c], known[c], reports, CellsOf(rows, c), start)
  }

  ghost predicate AnyMark(cols: seq<Column>) {
    exists c, i :: 0 <= c < |cols| && 0 <= i < |cols[c].other| && cols[c].other[i]
  }

  /** The marks are allocated on the batch's first such cell. */
  ghost predicate OtherOk(cols: seq<Column>, hasOther: bool) {
    (hasOther ==> AnyMark(cols)) && (!hasOther ==> forall c :: 0 <= c < |cols| ==> cols[c].other == [])
  }

  lemma OtherStep(cols: seq<Column>, hasOther: bool, c: nat, r: Column, outside: bool)
    requires c < |cols| && OtherOk(cols, hasOther) && MarksKept(cols[c], r, outside)
    ensures OtherOk(cols[c := r], hasOther || outside)
  {
    var next := cols[c := r];
    if outside {
      assert next[c].other[|r.other| - 1];
    } else if hasOther {
      var d, i :| 0 <= d < |cols| && 0 <= i < |cols[d].other| && cols[d].other[i];
      assert next[d].other[i];
    }
  }

  lemma ReadyStep(col: Column, known: bool, reports: bool, all: seq<Cell>, start: nat, cell: Cell, r: Column)
    requires Ready(col, known, reports, all, start) && !Clashes(col, known, cell)
    requires r.kind == (if !known && cell.Typed? then KindOf(cell.v) else col.kind)
    requires Building(r, known || cell.Typed?, all[start..] + [cell]) && Marked(r, reports, all[start..] + [cell])
    ensures Ready(r, known || cell.Typed?, reports, all + [cell], start)
  {
    FirstKindSnoc(all, cell);
    MixedSnoc(col, known, all, cell);
    assert (all + [cell])[start..] == all[start..] + [cell];
  }

  lemma CellsSnoc(rows: seq<Row>, row: Row, c: nat)
    requires Rectangular(rows + [row], |row.cells|) && c < |row.cells|
    ensures Rectangular(rows, |row.cells|) && CellsOf(rows + [row], c) == CellsOf(rows, c) + [row.cells[c]]
  {
    assert forall i :: 0 <= i < |rows| ==> (rows + [row])[i] == rows[i];
  }

  /** Adds a cell to a column, unless numbers of the two kinds meet. */
  method ExtendColumn(col: Column, known: bool, reports: bool, cell: Cell, ghost all: seq<Cell>, ghost start: nat)
    returns (r: Column, known': bool, outside: bool, clash: bool)
    requires Ready(col, known, reports, all, start)
    ensures clash <==> Mixed(all + [cell])
    ensures !clash ==> Ready(r, known', reports, all + [cell], start) && MarksKept(col, r, outside)
  {
    MixedSnoc(col, known, all, cell);
    r, known', outside, clash := col, known, false, Clashes(col, known, cell);
    if !clash {
      r, outside := AddCell(col, known, reports, cell, all[start..]);
      known' := known || cell.Typed?;
      ReadyStep(col, known, reports, all, start, cell, r);
    }
  }

  /** The columns before c include the row and the others do not yet. */
  ghost predicate PartlyReady(cols: seq<Column>, known: seq<bool>, reports: bool, rows: seq<Row>, row: Row, start: nat,
      c: nat)
    requires Rectangular(rows + [row], |row.cells|) && Rectangular(rows, |row.cells|) && c <= |row.cells|
  {
    && |cols| == |known| == |row.cells|
    && (forall d :: 0 <= d < c ==> Ready(cols[d], known[d], reports, CellsOf(rows + [row], d), start))
    && (forall d :: c <= d < |row.cells| ==> Ready(cols[d], known[d], reports, CellsOf(rows, d), start))
  }

  lemma PartlyNext(cols: seq<Column>, known: seq<bool>, reports: bool, rows: seq<Row>, row: Row, start: nat, c: nat,
      r: Column, k: bool)
    requires Rectangular(rows + [row], |row.cells|) && Rectangular(rows, |row.cells|) && c < |row.cells|
    requires PartlyReady(cols, known, reports, rows, row, start, c)
    requires Ready(r, k, reports, CellsOf(rows + [row], c), start)
    ensures PartlyReady(cols[c := r], known[c := k], reports, rows, row, start, c + 1)
  {
  }

  lemma ReadyNotMixed(cols: seq<Column>, known: seq<bool>, reports: bool, rows: seq<Row>, start: nat, n: nat)
    requires Rectangular(rows, n) && AllReady(cols, known, reports, rows, start, n)
    ensures forall c :: 0 <= c < n ==> !Mixed(CellsOf(rows, c))
  {
    forall c | 0 <= c < n
      ensures !Mixed(CellsOf(rows, c))
    {
      assert Ready(cols[c], known[c], reports, CellsOf(rows, c), start);
    }
  }

  /** Adds a row to every column, stopping at the first clash. */
  method AddRow(cols: seq<Column>, known: seq<bool>, hasOther: bool, reports: bool, row: Row, ghost rows: seq<Row>,
      ghost start: nat)
    returns (cols': seq<Column>, known': seq<bool>, hasOther': bool, clash: bool)
    requires Rectangular(rows + [row], |row.cells|) && Rectangular(rows, |row.cells|)
    requires AllReady(cols, known, reports, rows, start, |row.cells|) && OtherOk(cols, hasOther)
    ensures clash <==> exists c :: 0 <= c < |row.cells| && Mixed(CellsOf(rows + [row], c))
    ensures !clash ==> AllReady(cols', known', reports, rows + [row], start, |row.cells|) && OtherOk(cols', hasOther')
  {
    cols', known', hasOther', clash := cols, known, hasOther, false;
    for c := 0 to |row.cells|
      invariant PartlyReady(cols', known', reports, rows, row, start, c) && OtherOk(cols', hasOther')
    {
      CellsSnoc(rows, row, c);
      var r, k, outside;
      r, k, outside, clash := ExtendColumn(cols'[c], known'[c], reports, row.cells[c], CellsOf(rows, c), start);
      if clash {
        return;
      }
      PartlyNext(cols', known', reports, rows, row, start, c, r, k);
      OtherStep(cols', hasOther', c, r, outside);
      cols', known', hasOther' := cols'[c := r], known'[c := k], hasOther' || outside;
    }
    clash := false;
    ReadyNotMixed(cols', known', reports, rows + [row], start, |row.cells|);
  }

  // ---------- handing a batch out ----------

  /** Every slice is parallel to the rows and every cell is where it should be. */
  ghost predicate Sealed(col: Column, reports: bool, cells: seq<Cell>, hasOther: bool) {
    && |col.nulls| == |Slice(col)| == |cells|
    && (forall i :: 0 <= i < |cells| ==> (col.nulls[i] <==> !Carried(cells[i], col.kind)))
    && (forall i :: 0 <= i < |cells| ==> Slice(col)[i] == Entry(cells[i], col.kind))
    && (if hasOther then |col.other| == |cells| else col.other == [])
    && (forall i :: 0 <= i < |cells| ==> (hasOther && col.other[i] <==> reports && HeldOutside(cells[i], col.kind)))
  }

  method SealColumn(col: Column, known: bool, reports: bool, hasOther: bool, ghost cells: seq<Cell>) returns (r: Column)
    requires Building(col, known, cells) && Marked(col, reports, cells) && (!hasOther ==> col.other == [])
    ensures r.kind == col.kind && Sealed(r, reports, cells, hasOther)
    ensures hasOther ==> col.other <= r.other
  {
    var rows := |col.nulls|;
    r := AlignTyped(col, rows);
    SealedSlice(col, known, r, cells);
    if hasOther {
      var plain := r;
      r := r.(other := PadOther(r.other, rows));
      assert Slice(r) == Slice(plain);
    }
  }

  lemma SealedSlice(col: Column, known: bool, r: Column, cells: seq<Cell>)
    requires Building(col, known, cells) && r.kind == col.kind && |Slice(col)| <= |cells|
    requires Slice(r) == Slice(col) + seq(|cells| - |Slice(col)|, _ => Zero(col.kind))
    ensures |Slice(r)| == |cells| && forall i :: 0 <= i < |cells| ==> Slice(r)[i] == Entry(cells[i], col.kind)
  {
  }

  /** Truncates the buffers and keeps the kind. */
  function Reset(col: Column): Column { Column(col.kind, [], [], [], [], [], []) }

  lemma ResetReady(col: Column, known: bool, reports: bool, all: seq<Cell>)
    requires Learned(col, known, all)
    ensures Ready(Reset(col), known, reports, all, |all|)
  {
    assert all[|all|..] == [];
    assert Slice(Reset(col)) == [];
  }

  function IdsFrom(rows: seq<Row>, start: nat): seq<int>
    requires start <= |rows|
  {
    seq(|rows| - start, i requires 0 <= i < |rows| - start => rows[start + i].id)
  }

  /** What a batch holds, given its rows and all rows up to its end. */
  ghost predicate BatchOk(b: Batch, reports: bool, rows: seq<Row>, start: nat, n: nat)
    requires Rectangular(rows, n)
  {
    && start < |rows| && b.ids == IdsFrom(rows, start)
    && |b.columns| == n
    && (b.hasOther ==> AnyMark(b.columns))
    && (forall c :: 0 <= c < n ==> ColumnOk(b.columns[c], reports, CellsOf(rows, c), start, b.hasOther))
  }

  ghost predicate ColumnOk(col: Column, reports: bool, all: seq<Cell>, start: nat, hasOther: bool) {
    && start <= |all| && Sealed(col, reports, all[start..], hasOther)
    && col.kind == match FirstKind(all) case Some(k) => k case None => Int64
  }

  lemma MarksPrefix(cols: seq<Column>, sealed: seq<Column>)
    requires |cols| == |sealed| && AnyMark(cols) && forall c :: 0 <= c < |cols| ==> cols[c].other <= sealed[c].other
    ensures AnyMark(sealed)
  {
    var c, i :| 0 <= c < |cols| && 0 <= i < |cols[c].other| && cols[c].other[i];
    assert sealed[c].other[i];
  }

  method FlushColumn(col: Column, known: bool, reports: bool, hasOther: bool, ghost all: seq<Cell>,
      ghost start: nat) returns (r: Column, next: Column)
    requires Ready(col, known, reports, all, start) && (!hasOther ==> col.other == [])
    ensures Flushed(r, next, col, known, hasOther, reports, all, start)
  {
    r := SealColumn(col, known, reports, hasOther, all[start..]);
    next := Reset(col);
    ResetReady(col, known, reports, all);
  }

  /** A column sealed as r for the batch and reset as next. */
  ghost predicate Flushed(r: Column, next: Column, col: Column, known: bool, hasOther: bool, reports: bool,
      all: seq<Cell>, start: nat) {
    && ColumnOk(r, reports, all, start, hasOther) && (hasOther ==> col.other <= r.other)
    && Ready(next, known, reports, all, |all|) && next.other == []
  }

  /** The first columns have been sealed and reset. */
  ghost predicate PartlyFlushed(sealed: seq<Column>, next: seq<Column>, cols: seq<Column>, known: seq<bool>,
      hasOther: bool, reports: bool, rows: seq<Row>, start: nat)
    requires Rectangular(rows, |cols|) && |sealed| == |next| <= |cols| == |known|
  {
    forall d :: 0 <= d < |sealed| ==> Flushed(sealed[d], next[d], cols[d], known[d], hasOther, reports, CellsOf(rows,
        d), start)
  }

  /** Seals the columns of a batch and prepares the buffers for the next one. */
  method Flush(ids: seq<int>, cols: seq<Column>, known: seq<bool>, hasOther: bool, reports: bool, ghost rows: seq<Row>,
      ghost start: nat)
    returns (b: Batch, next: seq<Column>)
    requires Rectangular(rows, |cols|) && AllReady(cols, known, reports, rows, start, |cols|) && OtherOk(cols, hasOther)
    requires start < |rows| && ids == IdsFrom(rows, start)
    ensures BatchOk(b, reports, rows, start, |cols|)
    ensures |next| == |cols| && AllReady(next, known, reports, rows, |rows|, |cols|) && OtherOk(next, false)
  {
    var sealed := [];
    next := [];
    for c := 0 to |cols|
      invariant |sealed| == |next| == c && PartlyFlushed(sealed, next, cols, known, hasOther, reports, rows, start)
    {
      assert Ready(cols[c], known[c], reports, CellsOf(rows, c), start);
      var r, fresh' := FlushColumn(cols[c], known[c], reports, hasOther, CellsOf(rows, c), start);
      FlushedNext(sealed, next, cols, known, hasOther, reports, rows, start, r, fresh');
      sealed, next := sealed + [r], next + [fresh'];
    }
    b := Batch(ids, sealed, hasOther);
    if hasOther {
      MarksPrefix(cols, sealed);
    }
  }

  lemma FlushedNext(sealed: seq<Column>, next: seq<Column>, cols: seq<Column>, known: seq<bool>, hasOther: bool,
      reports: bool, rows: seq<Row>, start: nat, r: Column, e: Column)
    requires Rectangular(rows, |cols|) && |sealed| == |next| < |cols| == |known|
        && PartlyFlushed(sealed, next, cols, known, hasOther, reports, rows, start)
    requires var c := |sealed|; Flushed(r, e, cols[c], known[c], hasOther, reports, CellsOf(rows, c), start)
    ensures PartlyFlushed(sealed + [r], next + [e], cols, known, hasOther, reports, rows, start)
  {
  }

  // ---------- the scan ----------

  /** The rows of batch b. */
  function BatchEnd(b: nat, total: nat): nat { if (b + 1) * BATCH_ROWS < total then (b + 1) * BATCH_ROWS else total }

  ghost predicate BatchesOk(batches: seq<Batch>, reports: bool, rows: seq<Row>, n: nat)
    requires Rectangular(rows, n)
  {
    forall b :: 0 <= b < |batches| ==>
      b * BATCH_ROWS < |rows| && BatchOk(batches[b], reports, rows[..BatchEnd(b, |rows|)], b * BATCH_ROWS, n)
  }

  lemma {:induction false} FirstKindGrows(a: seq<Cell>, b: seq<Cell>)
    requires FirstKind(a).Some?
    ensures FirstKind(a + b) == FirstKind(a)
    decreases |b|
  {
    if b == [] {
      assert a + b == a;
    } else {
      FirstKindGrows(a, b[..|b| - 1]);
      assert a + b == (a + b[..|b| - 1]) + [b[|b| - 1]];
      FirstKindSnoc(a + b[..|b| - 1], b[|b| - 1]);
    }
  }

  lemma MixedGrows(a: seq<Cell>, b: seq<Cell>)
    requires Mixed(a)
    ensures Mixed(a + b)
  {
    FirstKindGrows(a, b);
    var i :| 0 <= i < |a| && a[i].Typed? && Numeric(KindOf(a[i].v)) && KindOf(a[i].v) != FirstKind(a).value;
    assert (a + b)[i] == a[i];
  }

  lemma CellsPrefix(rows: seq<Row>, i: nat, c: nat, n: nat)
    requires Rectangular(rows, n) && i <= |rows| && c < n
    ensures Rectangular(rows[..i], n) && Rectangular(rows[i..], n)
        && CellsOf(rows, c) == CellsOf(rows[..i], c) + CellsOf(rows[i..], c)
  {
  }

  lemma MixedPrefix(rows: seq<Row>, i: nat, n: nat)
    requires Rectangular(rows, n) && i <= |rows| && exists c :: 0 <= c < n && Mixed(CellsOf(rows[..i], c))
    ensures exists c :: 0 <= c < n && Mixed(CellsOf(rows, c))
  {
    var c :| 0 <= c < n && Mixed(CellsOf(rows[..i], c));
    CellsPrefix(rows, i, c, n);
    MixedGrows(CellsOf(rows[..i], c), CellsOf(rows[i..], c));
  }

  function Blank(): Column { Column(Int64, [], [], [], [], [], []) }

  lemma BlankReady(reports: bool)
    ensures Ready(Blank(), false, reports, [], 0)
  {
    var none: seq<Cell> := [];
    assert none[0..] == none;
  }

  lemma BlanksReady(cols: seq<Column>, known: seq<bool>, reports: bool)
    requires |known| == |cols| && (forall c :: 0 <= c < |cols| ==>
        cols[c] == Blank()) && forall c :: 0 <= c < |cols| ==> !known[c]
    ensures AllReady(cols, known, reports, [], 0, |cols|) && OtherOk(cols, false)
  {
    BlankReady(reports);
    assert forall c :: 0 <= c < |cols| ==> CellsOf([], c) == [];
  }

  /** The batch in progress. */
  datatype Builder = Builder(ids: seq<int>, cols: seq<Column>, known: seq<bool>, hasOther: bool)

  ghost predicate BuilderOk(s: Builder, reports: bool, rows: seq<Row>, start: nat, n: nat) {
    && Rectangular(rows, n) && start <= |rows| && |s.cols| == n
    && AllReady(s.cols, s.known, reports, rows, start, n) && OtherOk(s.cols, s.hasOther)
        && s.ids == IdsFrom(rows, start)
  }

  method Extend(s: Builder, reports: bool, row: Row, ghost rows: seq<Row>, ghost start: nat,
      ghost n: nat) returns (t: Builder, clash: bool)
    requires BuilderOk(s, reports, rows, start, n) && |row.cells| == n
    ensures Rectangular(rows + [row], n) && (clash <==> exists c :: 0 <= c < n && Mixed(CellsOf(rows + [row], c)))
    ensures !clash ==> BuilderOk(t, reports, rows + [row], start, n)
  {
    var cols, known, hasOther;
    cols, known, hasOther, clash := AddRow(s.cols, s.known, s.hasOther, reports, row, rows, start);
    t := Builder(s.ids + [row.id], cols, known, hasOther);
    assert t.ids == IdsFrom(rows + [row], start);
  }

  method Emit(s: Builder, reports: bool, ghost rows: seq<Row>, ghost start: nat, ghost n: nat)
      returns (b: Batch, t: Builder)
    requires BuilderOk(s, reports, rows, start, n) && start < |rows|
    ensures BatchOk(b, reports, rows, start, n) && BuilderOk(t, reports, rows, |rows|, n)
  {
    var cols;
    b, cols := Flush(s.ids, s.cols, s.known, s.hasOther, reports, rows, start);
    t := Builder([], cols, s.known, false);
  }

  lemma BatchesNext(batches: seq<Batch>, b: Batch, reports: bool, rows: seq<Row>, end: nat, n: nat)
    requires Rectangular(rows, n) && BatchesOk(batches, reports, rows, n)
    requires |batches| * BATCH_ROWS < end <= |rows| && end == BatchEnd(|batches|, |rows|) && Rectangular(rows[..end], n)
    requires BatchOk(b, reports, rows[..end], |batches| * BATCH_ROWS, n)
    ensures BatchesOk(batches + [b], reports, rows, n)
  {
  }

  lemma BuilderNotMixed(s: Builder, reports: bool, rows: seq<Row>, start: nat, n: nat)
    requires BuilderOk(s, reports, rows, start, n)
    ensures forall c :: 0 <= c < n ==> !Mixed(CellsOf(rows, c))
  {
    ReadyNotMixed(s.cols, s.known, reports, rows, start, n);
  }

  method Start(n: nat, reports: bool) returns (s: Builder)
    ensures BuilderOk(s, reports, [], 0, n)
  {
    s := Builder([], seq(n, _ => Blank()), seq(n, _ => false), false);
    BlanksReady(s.cols, s.known, reports);
  }

  /** After i rows: full batches handed out, the rest in progress. */
  ghost predicate Scanned(s: Builder, batches: seq<Batch>, reports: bool, rows: seq<Row>, i: nat, n: nat) {
    && Rectangular(rows, n) && |batches| * BATCH_ROWS <= i < |batches| * BATCH_ROWS + BATCH_ROWS && i <= |rows|
    && BuilderOk(s, reports, rows[..i], |batches| * BATCH_ROWS, n) && BatchesOk(batches, reports, rows, n)
  }

  /** Hands the batch out once it is full. */
  method EmitFull(s: Builder, batches: seq<Batch>, reports: bool, ghost rows: seq<Row>, ghost end: nat, ghost n: nat)
    returns (t: Builder, more: seq<Batch>)
    requires Rectangular(rows, n) && |batches| * BATCH_ROWS < end <= |batches| * BATCH_ROWS + BATCH_ROWS
        && end <= |rows|
    requires BuilderOk(s, reports, rows[..end], |batches| * BATCH_ROWS, n) && BatchesOk(batches, reports, rows, n)
    ensures Scanned(t, more, reports, rows, end, n) && batches <= more && |more| <= |batches| + 1
  {
    assert |s.ids| == end - |batches| * BATCH_ROWS;
    t, more := s, batches;
    if |s.ids| >= BATCH_ROWS {
      var b;
      b, t := Emit(s, reports, rows[..end], |batches| * BATCH_ROWS, n);
      BatchesNext(batches, b, reports, rows, end, n);
      more := batches + [b];
    }
  }

  method ScanRow(s: Builder, batches: seq<Batch>, reports: bool, row: Row, ghost rows: seq<Row>, ghost i: nat,
      ghost n: nat)
    returns (t: Builder, more: seq<Batch>, mixed: bool)
    requires Scanned(s, batches, reports, rows, i, n) && i < |rows| && row == rows[i]
    ensures mixed ==> more == batches && exists c :: 0 <= c < n && Mixed(CellsOf(rows, c))
    ensures !mixed ==> Scanned(t, more, reports, rows, i + 1, n) && batches <= more && |more| <= |batches| + 1
  {
    ghost var before, after := rows[..i], rows[..i + 1];
    assert after == before + [row];
    more := batches;
    t, mixed := Extend(s, reports, row, before, |batches| * BATCH_ROWS, n);
    if mixed {
      MixedPrefix(rows, i + 1, n);
    } else {
      t, more := EmitFull(t, batches, reports, rows, i + 1, n);
    }
  }

  method Finish(s: Builder, batches: seq<Batch>, reports: bool, ghost rows: seq<Row>, ghost n: nat)
      returns (more: seq<Batch>)
    requires Scanned(s, batches, reports, rows, |rows|, n)
    ensures BatchesOk(more, reports, rows, n) && |more| == (|rows| + BATCH_ROWS - 1) / BATCH_ROWS
        && |more| <= |batches| + 1
    ensures forall c :: 0 <= c < n ==> !Mixed(CellsOf(rows, c))
  {
    ghost var start := |batches| * BATCH_ROWS;
    assert rows[..|rows|] == rows;
    BuilderNotMixed(s, reports, rows, start, n);
    assert |s.ids| == |rows| - start;
    more := batches;
    if |s.ids| > 0 {
      var b, t := Emit(s, reports, rows, start, n);
      BatchesNext(batches, b, reports, rows, |rows|, n);
      more := batches + [b];
    }
  }

  /**
   Scans rows into batches; keep is what the callback answers for each batch. A callback that declines a full
   batch ends the scan. Otherwise the scan is refused exactly when numbers of the two kinds meet in a column.
   The batches handed out, also before a refusal or an early end, are those of the rows.
  */
  method Scan(rows: seq<Row>, n: nat, reports: bool, keep: nat -> bool) returns (batches: seq<Batch>, mixed: bool)
    requires Rectangular(rows, n)
    ensures BatchesOk(batches, reports, rows, n)
    ensures forall b :: 0 <= b < |batches| - 1 ==> keep(b)
    ensures mixed ==> (forall b :: 0 <= b < |batches| ==> keep(b)) && exists c :: 0 <= c < n && Mixed(CellsOf(rows, c))
    ensures !mixed ==>
      || (|batches| == (|rows| + BATCH_ROWS - 1) / BATCH_ROWS && forall c :: 0 <= c < n ==> !Mixed(CellsOf(rows, c)))
      || (0 < |batches| && |batches| * BATCH_ROWS <= |rows| && !keep(|batches| - 1))
  {
    batches, mixed := [], false;
    var s := Start(n, reports);
    assert rows[..0] == [];
    for i := 0 to |rows|
      invariant Scanned(s, batches, reports, rows, i, n) && !mixed
      invariant forall b :: 0 <= b < |batches| ==> keep(b)
    {
      var handedOut := |batches|;
      s, batches, mixed := ScanRow(s, batches, reports, rows[i], rows, i, n);
      if mixed {
        return;
      }
      if |batches| > handedOut && !keep(handedOut) {
        return;
      }
    }
    batches := Finish(s, batches, reports, rows, n);
  }

  /** With a callback that never declines: refused if and only if some column is mixed, and otherwise complete. */
  method ScanAll(rows: seq<Row>, n: nat, reports: bool) returns (batches: seq<Batch>, mixed: bool)
    requires Rectangular(rows, n)
    ensures mixed <==> exists c :: 0 <= c < n && Mixed(CellsOf(rows, c))
    ensures BatchesOk(batches, reports, rows, n)
    ensures !mixed ==> |batches| == (|rows| + BATCH_ROWS - 1) / BATCH_ROWS
  {
    batches, mixed := Scan(rows, n, reports, _ => true);
  }

  /** A batch's kind is that of the whole column, or else the batch holds no scalar of it. */
  lemma KindIsOfTheColumn(all: seq<Cell>, end: nat)
    requires end <= |all|
    ensures FirstKind(all[..end]).Some? ==> FirstKind(all[..end]) == FirstKind(all)
    ensures FirstKind(all[..end]).None? ==> forall i :: 0 <= i < end ==> !all[i].Typed?
  {
    assert all == all[..end] + all[end..];
    if FirstKind(all[..end]).Some? {
      FirstKindGrows(all[..end], all[end..]);
    } else {
      forall i | 0 <= i < end
        ensures !all[i].Typed?
      {
        NoFirstKind(all[..end], i);
      }
    }
  }
}
