/**
 What each operation on rows does, row by row and field by field, and how long what it wrote lasts. Nothing here
 goes through the functions on single rows that define the operations.
*/
module RowRules {
  import opened Options
  import opened ByteStrings
  import opened PropertyEncoding
  import opened PropertySlices
  import opened CompactMeta
  import opened Rows

  /** Row i may differ, everything else is the same. */
  ghost predicate OnlyRow(s: Store, t: Store, i: nat) {
    && t.slices == s.slices && t.owned == s.owned && |t.rows| == |s.rows|
    && (forall j :: 0 <= j < |s.rows| && j != i ==> t.rows[j] == s.rows[j])
  }

  // ---------- writing one row ----------

  /** An accepted write binds the key, keeps every other key and every other field; a refused one changes nothing. */
  lemma SetPropertyRule(s: Store, i: nat, key: Bytes, value: Value)
    requires i < |s.rows|
    ensures var t, r := Apply(s, SetProperty(i, key, value)), s.rows[i];
            && OnlyRow(s, t, i)
            && (!r.frozen && EntryFault(key, value).None? ==> t.rows[i] == r.(props := r.props[key := value]))
            && (r.frozen || EntryFault(key, value).Some? ==> t == s)
  {
  }

  lemma DeletePropertyRule(s: Store, i: nat, key: Bytes)
    requires i < |s.rows|
    ensures var t, r := Apply(s, DeleteProperty(i, key)), s.rows[i];
            && OnlyRow(s, t, i)
            && (!r.frozen && KeyFault(key) != Some(ReservedKey) ==> t.rows[i] == r.(props := r.props - {key}))
            && (r.frozen || KeyFault(key) == Some(ReservedKey) ==> t == s)
  {
  }

  lemma SetPropertiesRule(s: Store, i: nat, ps: PropertySlice)
    requires i < |s.rows|
    ensures var t, r := Apply(s, SetProperties(i, ps)), s.rows[i];
            && OnlyRow(s, t, i)
            && (!r.frozen && CanonicalAccepts(ps) ==> t.rows[i] == r.(props := Contents(ps)))
            && (r.frozen || !CanonicalAccepts(ps) ==> t == s)
  {
  }

  /** The void setters replace their field of a row that is not frozen. */
  lemma SettersRule(s: Store, i: nat, version: nat, tm: Option<TemporalMetadata>, ig: Option<Integrity>)
    requires i < |s.rows|
    ensures var t, r := Apply(s, SetVersion(i, version)), s.rows[i];
            OnlyRow(s, t, i) && t.rows[i] == if r.frozen then r else r.(version := version)
    ensures var t, r := Apply(s, SetTemporal(i, tm)), s.rows[i];
            OnlyRow(s, t, i) && t.rows[i] == if r.frozen then r else r.(temporal := tm)
    ensures var t, r := Apply(s, SetIntegrity(i, ig)), s.rows[i];
            && OnlyRow(s, t, i)
            && (!r.frozen && (ig.None? || (ig.value.OfRel? <==> r.face.RelFace?)) ==>
                t.rows[i] == r.(integrity := ig))
            && (r.frozen ==> t.rows[i] == r)
  {
  }

  lemma FreezeRule(s: Store, i: nat)
    requires i < |s.rows|
    ensures var t := Apply(s, Freeze(i)); OnlyRow(s, t, i) && t.rows[i] == s.rows[i].(frozen := true)
  {
  }

  // ---------- installing slices ----------

  lemma InstallRule(s: Store, i: nat, k: nat)
    requires i < |s.rows| && k < |s.slices|
    ensures var t, r := Apply(s, SetPropertiesCanonicalShared(i, k)), s.rows[i];
            OnlyRow(s, t, i) && t.rows[i] == if r.face.NodeFace? then r.(props := s.slices[k]) else r
  {
  }

  /** An owned slice moves into the row, its properties replaced and the slice used up. */
  lemma OwnedRule(s: Store, i: nat, k: nat)
    requires i < |s.rows| && k < |s.owned|
    ensures var t, r := Apply(s, SetOwnedProperties(i, k)), s.rows[i];
            && OnlyRow(s, t.(owned := s.owned), i)
            && (r.frozen ==> t == s)
            && (!r.frozen && s.owned[k].Some? ==> t.rows[i] == r.(props := s.owned[k].value))
            && (!r.frozen && s.owned[k].None? ==> t.rows[i] == r.(props := map[]))
            && (!r.frozen ==> t.owned == s.owned[k := None])
  {
  }

  // ---------- adding ----------

  /** A new row is unfrozen and bare; the rows before it stay. */
  lemma NewRule(s: Store, id: int, face: Face)
    ensures var t := Apply(s, New(id, face));
            && t.slices == s.slices && t.owned == s.owned && t.rows[..|t.rows| - 1] == s.rows
            && t.rows[|s.rows|] == Row(id, face, 0, map[], false, None, None)
  {
  }

  /** A copy shows what the original shows and differs at most in being frozen. */
  lemma CopyRule(s: Store, i: nat)
    requires i < |s.rows|
    ensures var t, r := Apply(s, CompactFrozenCopy(i)), s.rows[i];
            t == s.(rows := s.rows + [Row(r.id, r.face, r.version, r.props, true, r.temporal, r.integrity)])
    ensures var t, r := Apply(s, DeepCopy(i)), s.rows[i];
            t == s.(rows := s.rows + [Row(r.id, r.face, r.version, r.props, false, r.temporal, r.integrity)])
  {
  }

  lemma SliceRule(s: Store, m: Bindings)
    ensures var fine := forall k :: k in m ==> EntryFault(k, m[k]).None?;
            && Apply(s, NewSlice(m)) == (if fine then s.(slices := s.slices + [m]) else s)
            && Apply(s, NewOwned(m)) == (if fine then s.(owned := s.owned + [Some(m)]) else s)
  {
  }

  lemma AliasRule(s: Store, i: nat)
    requires i < |s.rows|
    ensures var t, r := Apply(s, FrozenPropertiesAlias(i)), s.rows[i];
            if r.frozen && r.face.NodeFace? then t == s.(slices := s.slices + [r.props]) else t == s
  {
  }

  // ---------- runs ----------

  lemma {:induction false} RunInTwo(s: Store, first: seq<Op>, second: seq<Op>)
    ensures ApplyAll(s, first + second) == ApplyAll(ApplyAll(s, first), second)
    decreases |second|
  {
    if second == [] {
      assert first + second == first;
    } else {
      var n := |second| - 1;
      RunInTwo(s, first, second[..n]);
      var all := first + second;
      assert all[..|all| - 1] == first + second[..n] && all[|all| - 1] == second[n];
    }
  }

  /** The operation may unbind or rebind the key of row i. */
  predicate Touches(op: Op, i: nat, key: Bytes) {
    || (op.SetProperty? && op.i == i && op.key == key)
    || (op.DeleteProperty? && op.i == i && op.key == key)
    || (op.SetProperties? && op.i == i)
    || (op.SetPropertiesCanonicalShared? && op.i == i)
    || (op.SetOwnedProperties? && op.i == i)
  }

  ghost predicate Binds(s: Store, i: nat, key: Bytes, value: Value) {
    i < |s.rows| && key in s.rows[i].props && s.rows[i].props[key] == value
  }

  lemma {:induction false} BindingKept(s: Store, op: Op, i: nat, key: Bytes)
    requires i < |s.rows| && !Touches(op, i, key)
    ensures i < |Apply(s, op).rows|
    ensures forall value :: Binds(Apply(s, op), i, key, value) <==> Binds(s, i, key, value)
  {
    OthersUntouched(s, op, i);
  }

  lemma {:induction false} BindingLasts(s: Store, ops: seq<Op>, i: nat, key: Bytes)
    requires i < |s.rows| && forall t :: 0 <= t < |ops| ==> !Touches(ops[t], i, key)
    ensures i < |ApplyAll(s, ops).rows|
    ensures forall value :: Binds(ApplyAll(s, ops), i, key, value) <==> Binds(s, i, key, value)
    decreases |ops|
  {
    if ops != [] {
      var n := |ops| - 1;
      BindingLasts(s, ops[..n], i, key);
      BindingKept(ApplyAll(s, ops[..n]), ops[n], i, key);
    }
  }

  /** What an accepted write stored is there at the end of every run that does not touch that key of that row again. */
  lemma WriteLasts(before: seq<Op>, i: nat, key: Bytes, value: Value, after: seq<Op>)
    requires i < |ApplyAll(Empty(), before).rows| && !ApplyAll(Empty(), before).rows[i].frozen
    requires EntryFault(key, value).None? && forall t :: 0 <= t < |after| ==> !Touches(after[t], i, key)
    ensures Binds(ApplyAll(Empty(), before + [SetProperty(i, key, value)] + after), i, key, value)
  {
    var op := SetProperty(i, key, value);
    var s, ops := ApplyAll(Empty(), before), before + [op];
    assert ops[..|ops| - 1] == before;
    SetPropertyRule(s, i, key, value);
    assert ApplyAll(Empty(), ops) == Apply(s, op);
    RunInTwo(Empty(), ops, after);
    BindingLasts(Apply(s, op), after, i, key);
  }

  /** What an accepted removal took out is still absent at the end of such a run. */
  lemma DeleteLasts(before: seq<Op>, i: nat, key: Bytes, after: seq<Op>)
    requires i < |ApplyAll(Empty(), before).rows| && !ApplyAll(Empty(), before).rows[i].frozen
    requires KeyFault(key) != Some(ReservedKey) && forall t :: 0 <= t < |after| ==> !Touches(after[t], i, key)
    ensures var t := ApplyAll(Empty(), before + [DeleteProperty(i, key)] + after);
            i < |t.rows| && key !in t.rows[i].props
  {
    var op := DeleteProperty(i, key);
    var s, ops := ApplyAll(Empty(), before), before + [op];
    assert ops[..|ops| - 1] == before;
    DeletePropertyRule(s, i, key);
    assert ApplyAll(Empty(), ops) == Apply(s, op);
    RunInTwo(Empty(), ops, after);
    BindingLasts(Apply(s, op), after, i, key);
    var t := ApplyAll(Empty(), before + [op] + after);
    if key in t.rows[i].props {
      assert Binds(t, i, key, t.rows[i].props[key]);
    }
  }
}
