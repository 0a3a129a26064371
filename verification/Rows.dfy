/**
 Rows as values: what each node or relationship shows to its readers, with no sharing. Every operation is given
 here as a function on rows; the code is proved to implement these functions although it shares property
 storage between rows.
*/
module Rows {
  import opened Options
  import opened ByteStrings
  import opened PropertyEncoding
  import opened PropertySlices
  import opened CompactMeta

  type Bindings = map<Bytes, Value>

  /** What makes a row a node or a relationship. */
  datatype Face = NodeFace(primaryLabel: nat, extraLabels: seq<nat>) | RelFace(relType: nat, start: int, end: int)

  datatype Row = Row(
    id: int, face: Face, version: nat, props: Bindings, frozen: bool,
    temporal: Option<TemporalMetadata>, integrity: Option<Integrity>)

  /** Nodes carry node integrity records and relationships their own kind. */
  predicate Fitting(face: Face, ig: Option<Integrity>) { ig.Some? ==> ig.value.OfRel? == face.RelFace? }

  /** All rows, the property slices held outside rows, and the owned slices not yet consumed. */
  datatype Store = Store(rows: seq<Row>, slices: seq<Bindings>, owned: seq<Option<Bindings>>)

  datatype Op =
    | New(id: int, face: Face)
    | SetProperty(i: nat, key: Bytes, value: Value)
    | DeleteProperty(i: nat, key: Bytes)
    | SetProperties(i: nat, ps: PropertySlice)
    | SetVersion(i: nat, version: nat)
    | SetTemporal(i: nat, tm: Option<TemporalMetadata>)
    | SetIntegrity(i: nat, ig: Option<Integrity>)
    | Freeze(i: nat)
    | CompactFrozenCopy(i: nat)
    | DeepCopy(i: nat)
    | FrozenPropertiesAlias(i: nat)
    | NewSlice(m: Bindings)
    | SetPropertiesCanonicalShared(i: nat, k: nat)
    | NewOwned(m: Bindings)
    | SetOwnedProperties(i: nat, k: nat)

  function Empty(): Store { Store([], [], []) }

  // ---------- single rows ----------

  ghost predicate MapAccepted(m: Bindings) { forall k :: k in m ==> EntryFault(k, m[k]).None? }

  ghost function RowSet(r: Row, key: Bytes, value: Value): Row {
    if r.frozen || EntryFault(key, value).Some? then r else r.(props := r.props[key := value])
  }

  function RowDelete(r: Row, key: Bytes): Row {
    if r.frozen || KeyFault(key) == Some(ReservedKey) then r else r.(props := r.props - {key})
  }

  ghost function RowReplace(r: Row, ps: PropertySlice): Row {
    if r.frozen || !CanonicalAccepts(ps) then r else r.(props := Contents(ps))
  }

  function RowRevise(r: Row, op: Op): Row {
    if r.frozen then r
    else if op.SetVersion? then r.(version := op.version)
    else if op.SetTemporal? then r.(temporal := op.tm)
    else if op.SetIntegrity? && Fitting(r.face, op.ig) then r.(integrity := op.ig)
    else r
  }

  /** Moves an owned slice into a row that is not frozen; a consumed slice leaves the row without properties. */
  function TakeOwned(s: Store, i: nat, k: nat): Store
    requires i < |s.rows| && k < |s.owned|
  {
    if s.rows[i].frozen then s
    else s.(rows := s.rows[i := s.rows[i].(props := if s.owned[k].Some? then s.owned[k].value
        else map[])], owned := s.owned[k := None])
  }

  // ---------- the store ----------

  predicate Targets(op: Op, i: nat) {
    match op
    case SetProperty(j, _, _) => i == j
    case DeleteProperty(j, _) => i == j
    case SetProperties(j, _) => i == j
    case SetVersion(j, _) => i == j
    case SetTemporal(j, _) => i == j
    case SetIntegrity(j, _) => i == j
    case Freeze(j) => i == j
    case SetPropertiesCanonicalShared(j, _) => i == j
    case SetOwnedProperties(j, _) => i == j
    case _ => false
  }

  /**
   One operation. Operations that name nothing that exists do nothing, nor do those that the type system rules
   out: a foreign integrity record, and on a relationship the two operations that only nodes have.
  */
  ghost function Apply(s: Store, op: Op): Store {
    match op
    case New(id, face) => s.(rows := s.rows + [Row(id, face, 0, map[], false, None, None)])
    case NewSlice(m) => if MapAccepted(m) then s.(slices := s.slices + [m]) else s
    case NewOwned(m) => if MapAccepted(m) then s.(owned := s.owned + [Some(m)]) else s
    case _ => if op.i < |s.rows| then ApplyAt(s, op, s.rows[op.i]) else s
  }

  /** An operation on the existing row r. */
  ghost function ApplyAt(s: Store, op: Op, r: Row): Store
    requires !op.New? && !op.NewSlice? && !op.NewOwned? && op.i < |s.rows|
  {
    match op
    case SetProperty(i, key, value) => s.(rows := s.rows[i := RowSet(r, key, value)])
    case DeleteProperty(i, key) => s.(rows := s.rows[i := RowDelete(r, key)])
    case SetProperties(i, ps) => s.(rows := s.rows[i := RowReplace(r, ps)])
    case SetVersion(i, v) => s.(rows := s.rows[i := RowRevise(r, op)])
    case SetTemporal(i, tm) => s.(rows := s.rows[i := RowRevise(r, op)])
    case SetIntegrity(i, ig) => s.(rows := s.rows[i := RowRevise(r, op)])
    case Freeze(i) => s.(rows := s.rows[i := r.(frozen := true)])
    case CompactFrozenCopy(i) => s.(rows := s.rows + [r.(frozen := true)])
    case DeepCopy(i) => s.(rows := s.rows + [r.(frozen := false)])
    case FrozenPropertiesAlias(i) => if r.frozen && r.face.NodeFace? then s.(slices := s.slices + [r.props]) else s
    case SetPropertiesCanonicalShared(i, k) =>
      if k < |s.slices| && r.face.NodeFace? then s.(rows := s.rows[i := r.(props := s.slices[k])]) else s
    case SetOwnedProperties(i, k) => if k < |s.owned| then TakeOwned(s, i, k) else s
  }

  ghost function ApplyAll(s: Store, ops: seq<Op>): Store {
    if ops == [] then s else Apply(ApplyAll(s, ops[..|ops| - 1]), ops[|ops| - 1])
  }

  // ---------- what runs keep ----------

  /** Rows are never lost, and an operation changes no row but the one it names. */
  lemma OthersUntouched(s: Store, op: Op, j: nat)
    requires j < |s.rows|
    ensures j < |Apply(s, op).rows|
    ensures !Targets(op, j) ==> Apply(s, op).rows[j] == s.rows[j]
    ensures s.rows[j].frozen ==> Apply(s, op).rows[j].frozen
  {
  }

  /** A frozen row changes if and only if it is a node's and a different slice is installed on it unchecked. */
  lemma FrozenRowChangesIff(s: Store, op: Op, j: nat)
    requires j < |s.rows| && s.rows[j].frozen
    ensures Apply(s, op).rows[j] != s.rows[j] <==>
            && op.SetPropertiesCanonicalShared? && op.i == j && s.rows[j].face.NodeFace?
            && op.k < |s.slices| && s.slices[op.k] != s.rows[j].props
  {
  }

  /** A run from the empty store in which a frozen node changes. */
  lemma FrozenNodeChanged(id: int, face: Face, key: Bytes, value: Value)
    requires face.NodeFace? && EntryFault(key, value).None?
    ensures var s := ApplyAll(Empty(), [New(id, face), Freeze(0), NewSlice(map[key := value])]);
            var t := ApplyAll(
              Empty(), [New(id, face), Freeze(0), NewSlice(map[key := value]), SetPropertiesCanonicalShared(0, 0)]);
            && |s.rows| == |t.rows| == 1 && s.rows[0].frozen && t.rows[0].frozen
            && s.rows[0].props == map[] && t.rows[0].props == map[key := value]
  {
    var m := map[key := value];
    var added, frozen := [New(id, face)], [New(id, face), Freeze(0)];
    var sliced := [New(id, face), Freeze(0), NewSlice(m)];
    var all := [New(id, face), Freeze(0), NewSlice(m), SetPropertiesCanonicalShared(0, 0)];
    assert added[..0] == [] && frozen[..1] == added && sliced[..2] == frozen && all[..3] == sliced;
    var row := Row(id, face, 0, map[], false, None, None);
    assert ApplyAll(Empty(), added) == Store([row], [], []);
    assert ApplyAll(Empty(), frozen) == Store([row.(frozen := true)], [], []);
    assert ApplyAll(Empty(), sliced) == Store([row.(frozen := true)], [m], []);
  }

  ghost predicate InstallsOn(ops: seq<Op>, j: nat) {
    exists t :: 0 <= t < |ops| && ops[t].SetPropertiesCanonicalShared? && ops[t].i == j
  }

  /** Through any run without such an installation a frozen row stays as it is. */
  lemma {:induction false} FrozenRowsFixed(s: Store, ops: seq<Op>, j: nat)
    requires j < |s.rows| && s.rows[j].frozen && !InstallsOn(ops, j)
    ensures j < |ApplyAll(s, ops).rows| && ApplyAll(s, ops).rows[j] == s.rows[j]
    decreases |ops|
  {
    if ops != [] {
      var n := |ops| - 1;
      FrozenRowsFixed(s, ops[..n], j);
      var mid := ApplyAll(s, ops[..n]);
      OthersUntouched(mid, ops[n], j);
      FrozenRowChangesIff(mid, ops[n], j);
    }
  }

  /** The compact frozen copy shows what a deep copy that is then frozen shows. */
  lemma CompactIsCopyThenFreeze(s: Store, i: nat)
    ensures Apply(s, CompactFrozenCopy(i)) == if i < |s.rows| then Apply(Apply(s, DeepCopy(i)), Freeze(|s.rows|)) else s
  {
    if i < |s.rows| {
      var t := Apply(s, DeepCopy(i));
      assert t.rows[|s.rows|] == s.rows[i].(frozen := false);
      assert Apply(t, Freeze(|s.rows|)).rows == s.rows + [s.rows[i].(frozen := true)];
    }
  }

  /** An owned slice is installed at most once: using it again leaves the node without properties. */
  lemma OwnedSliceInstalledOnce(s: Store, i: nat, j: nat, k: nat)
    requires i < |s.rows| && j < |s.rows| && k < |s.owned| && !s.rows[i].frozen && !s.rows[j].frozen
    ensures var t := Apply(Apply(s, SetOwnedProperties(i, k)), SetOwnedProperties(j, k));
            t.rows[j].props == map[] && t.owned[k] == None
  {
    var t := Apply(s, SetOwnedProperties(i, k));
    assert !t.rows[j].frozen && t.owned[k] == None;
  }
}
