/**
 Any number of nodes and relationships that share backing arrays, under every sequence of operations: what each
 of them shows is what it would show if nothing were ever shared.
*/
module Sharing {
  import opened Options
  import opened ByteStrings
  import opened PropertyEncoding
  import opened PropertySlices
  import opened PropertyArrays
  import opened CompactMeta
  import opened Rows
  import opened RowRules
  import opened Entities

  class World {
    /** Nodes and relationships. */
    var entities: seq<Entity>
    /** Slices held outside entities: aliases taken from frozen nodes and slices built for several nodes. */
    var slices: seq<Header>
    /** Owned slices; a consumed one is None. */
    var owned: seq<Option<Header>>

    /** What everything shows. */
    ghost var shown: Store
    /** The backing arrays that are never written again. */
    ghost var sealed: set<array<Property>>
    /** All entities and backing arrays in use, now or earlier. */
    ghost var repr: set<object>

    // ---------- the invariant ----------

    ghost predicate EntityOk(n: Entity, r: Row)
      reads this, repr
    {
      n in repr && n.props.buf in repr && n.Valid() && n.Shown() == r
    }

    ghost predicate EntitiesShown()
      reads this, repr
    {
      |shown.rows| == |entities| && forall i :: 0 <= i < |entities| ==> EntityOk(entities[i], shown.rows[i])
    }

    ghost predicate HeaderOk(h: Header, m: Bindings)
      reads this, repr
    {
      h.buf in repr && Good(h) && Props(h) == m
    }

    ghost predicate SlicesShown()
      reads this, repr
    {
      |shown.slices| == |slices| && forall k :: 0 <= k < |slices| ==>
          HeaderOk(slices[k], shown.slices[k]) && slices[k].buf in sealed
    }

    ghost predicate OwnedShown()
      reads this, repr
    {
      && |shown.owned| == |owned|
      && forall k :: 0 <= k < |owned| ==> owned[k].Some? == shown.owned[k].Some? && (owned[k].Some? ==>
          HeaderOk(owned[k].value, shown.owned[k].value) && owned[k].value.buf !in sealed)
    }

    /** An entity may write its array exactly when the array is not sealed. */
    ghost predicate EntitySealing()
      reads this, entities
    {
      forall i :: 0 <= i < |entities| ==> (entities[i].Private() <==> entities[i].props.buf !in sealed)
    }

    /** Arrays that are not sealed have one holder. */
    ghost predicate EntityExclusive()
      reads this, entities
    {
      forall i, j :: 0 <= i < j < |entities| ==>
        && entities[i] != entities[j]
        && (entities[i].props.buf == entities[j].props.buf ==> entities[i].props.buf in sealed)
    }

    ghost predicate OwnedExclusive()
      reads this, entities
    {
      && (forall i, k :: 0 <= i < |entities| && 0 <= k < |owned| && owned[k].Some? ==>
          entities[i].props.buf != owned[k].value.buf)
      && (forall k, l :: 0 <= k < l < |owned| && owned[k].Some? && owned[l].Some? ==>
          owned[k].value.buf != owned[l].value.buf)
    }

    ghost predicate Inv()
      reads this, entities, repr
    {
      this !in repr && EntitiesShown() && SlicesShown() && OwnedShown() && EntitySealing() && EntityExclusive()
          && OwnedExclusive()
    }

    /** Of two entities with one backing array, each is frozen or marked as sharing. */
    lemma SharersAreMarked(i: nat, j: nat)
      requires Inv() && i < |entities| && j < |entities| && i != j && entities[i].props.buf == entities[j].props.buf
      ensures (entities[i].frozen || entities[i].sharedProps) && (entities[j].frozen || entities[j].sharedProps)
    {
      if i < j {
        assert entities[i].props.buf in sealed;
      } else {
        assert entities[j].props.buf in sealed;
      }
    }

    constructor ()
      ensures Inv() && shown == Empty() && repr == {}
    {
      entities, slices, owned := [], [], [];
      shown, sealed, repr := Empty(), {}, {};
    }

    // ---------- steps that write one entity ----------

    /** Only entity i changed, and of the arrays in use only one that it alone holds. */
    twostate predicate WroteOnly(i: nat)
      requires i < |old(entities)|
      reads *
    {
      && entities == old(entities) && repr == old(repr) + {entities[i].props.buf} && sealed == old(sealed)
      && (forall o :: o in old(repr) && o != entities[i] && o !in old(entities[i].Writable()) ==> unchanged(o))
    }

    twostate lemma EntitiesKept(i: nat)
      requires old(Inv()) && i < |old(entities)| && WroteOnly(i)
      requires entities[i].Valid() && shown.rows == old(shown).rows[i := entities[i].Shown()]
      ensures EntitiesShown()
    {
      forall j | 0 <= j < |entities| && j != i
        ensures EntityOk(entities[j], shown.rows[j])
      {
        assert old(EntityOk(entities[j], shown.rows[j]));
        assert unchanged(entities[j]) && unchanged(entities[j].props.buf);
      }
      assert EntityOk(entities[i], shown.rows[i]);
    }

    twostate lemma SlicesKept(i: nat)
      requires old(Inv()) && i < |old(entities)| && WroteOnly(i) && slices == old(slices)
          && shown.slices == old(shown).slices
      ensures SlicesShown()
    {
      forall k | 0 <= k < |slices|
        ensures HeaderOk(slices[k], shown.slices[k])
      {
        assert old(HeaderOk(slices[k], shown.slices[k]));
        assert unchanged(slices[k].buf);
      }
    }

    twostate lemma OwnedKept(i: nat)
      requires old(Inv()) && i < |old(entities)| && WroteOnly(i) && |owned| == |shown.owned| == |old(owned)|
      requires forall k :: 0 <= k < |owned| ==>
        (owned[k] == old(owned)[k] && shown.owned[k] == old(shown).owned[k]) || (owned[k].None? && shown.owned[k].None?)
      ensures OwnedShown()
    {
      forall k | 0 <= k < |owned| && owned[k].Some?
        ensures HeaderOk(owned[k].value, shown.owned[k].value)
      {
        assert old(HeaderOk(owned[k].value, shown.owned[k].value));
        assert unchanged(owned[k].value.buf);
      }
    }

    /** The entity's array is the one it alone held, a new one, or a sealed one. */
    twostate predicate ArrayKept(i: nat)
      requires i < |old(entities)| && entities == old(entities)
      reads this, entities
    {
      if entities[i].Private() then (old(entities[i].Private())
          && entities[i].props.buf == old(entities[i].props.buf)) || fresh(entities[i].props.buf)
      else entities[i].props.buf in sealed
    }

    twostate lemma SealingKept(i: nat)
      requires old(Inv()) && i < |old(entities)| && WroteOnly(i) && ArrayKept(i) && owned == old(owned)
      ensures EntitySealing() && EntityExclusive() && OwnedExclusive()
    {
      forall j | 0 <= j < |entities| && j != i
        ensures entities[j].props == old(entities[j].props) && entities[j].Private() == old(entities[j].Private())
      {
        assert old(EntityOk(entities[j], shown.rows[j]));
        assert unchanged(entities[j]);
      }
    }

    twostate lemma StepKeeps(i: nat)
      requires old(Inv()) && i < |old(entities)| && WroteOnly(i) && ArrayKept(i)
      requires slices == old(slices) && owned == old(owned)
      requires entities[i].Valid() && shown == old(shown).(rows := old(shown).rows[i := entities[i].Shown()])
      ensures Inv()
    {
      EntitiesKept(i);
      SlicesKept(i);
      OwnedKept(i);
      SealingKept(i);
    }

    method Put(i: nat, key: Bytes, value: Value)
      requires Inv() && i < |entities|
      modifies this, entities[i], entities[i].Writable()
      ensures Inv() && fresh(repr - old(repr))
          && shown == old(shown).(rows := old(shown).rows[i := RowSet(old(shown).rows[i], key, value)])
    {
      assert EntityOk(entities[i], shown.rows[i]);
      var err := entities[i].SetProperty(key, value);
      repr := repr + {entities[i].props.buf};
      shown := shown.(rows := shown.rows[i := RowSet(shown.rows[i], key, value)]);
      StepKeeps(i);
    }

    method Remove(i: nat, key: Bytes)
      requires Inv() && i < |entities|
      modifies this, entities[i], entities[i].Writable()
      ensures Inv() && fresh(repr - old(repr))
          && shown == old(shown).(rows := old(shown).rows[i := RowDelete(old(shown).rows[i], key)])
    {
      assert EntityOk(entities[i], shown.rows[i]);
      var err, found := entities[i].DeleteProperty(key);
      repr := repr + {entities[i].props.buf};
      shown := shown.(rows := shown.rows[i := RowDelete(shown.rows[i], key)]);
      StepKeeps(i);
    }

    method Replace(i: nat, ps: PropertySlice)
      requires Inv() && i < |entities|
      modifies this, entities[i]
      ensures Inv() && fresh(repr - old(repr))
          && shown == old(shown).(rows := old(shown).rows[i := RowReplace(old(shown).rows[i], ps)])
    {
      assert EntityOk(entities[i], shown.rows[i]);
      var err := entities[i].SetProperties(ps);
      repr := repr + {entities[i].props.buf};
      shown := shown.(rows := shown.rows[i := RowReplace(shown.rows[i], ps)]);
      StepKeeps(i);
    }

    /** The void mutators. */
    method Revise(i: nat, op: Op)
      requires Inv() && i < |entities| && (op.SetVersion? || op.SetTemporal? || op.SetIntegrity?) && op.i == i
      modifies this, entities[i]
      ensures Inv() && fresh(repr - old(repr))
          && shown == old(shown).(rows := old(shown).rows[i := RowRevise(old(shown).rows[i], op)])
    {
      assert EntityOk(entities[i], shown.rows[i]);
      var panicked;
      match op {
        case SetVersion(_, v) => panicked := entities[i].SetVersion(v);
        case SetTemporal(_, tm) => panicked := entities[i].SetTemporal(tm);
        case SetIntegrity(_, ig) =>
          if Fitting(entities[i].face, ig) {
            panicked := entities[i].SetIntegrity(ig);
          }
      }
      repr := repr + {entities[i].props.buf};
      shown := shown.(rows := shown.rows[i := entities[i].Shown()]);
      StepKeeps(i);
    }

    method Share(i: nat, k: nat)
      requires Inv() && i < |entities| && k < |slices|
      modifies this, entities[i]
      ensures Inv() && fresh(repr - old(repr))
          && shown == old(shown).(rows := old(shown).rows[i := old(shown).rows[i].(props := old(shown).slices[k])])
    {
      assert EntityOk(entities[i], shown.rows[i]) && HeaderOk(slices[k], shown.slices[k]);
      entities[i].SetPropertiesCanonicalShared(slices[k]);
      repr := repr + {entities[i].props.buf};
      shown := shown.(rows := shown.rows[i := shown.rows[i].(props := shown.slices[k])]);
      StepKeeps(i);
    }

    // ---------- consuming an owned slice ----------

    twostate lemma TakeSealing(i: nat, new k: nat)
      requires old(Inv()) && i < |old(entities)| && k < |old(owned)| && WroteOnly(i) && owned == old(owned)[k := None]
      requires entities[i].Private() && (if old(owned)[k].Some? then entities[i].props == old(owned)[k].value
          else fresh(entities[i].props.buf))
      ensures EntitySealing() && EntityExclusive() && OwnedExclusive()
    {
      forall j | 0 <= j < |entities| && j != i
        ensures entities[j].props == old(entities[j].props) && entities[j].Private() == old(entities[j].Private())
      {
        assert old(EntityOk(entities[j], shown.rows[j]));
        assert unchanged(entities[j]);
      }
    }

    twostate lemma TakeKeeps(i: nat, new k: nat)
      requires old(Inv()) && i < |old(entities)| && k < |old(owned)| && WroteOnly(i) && owned == old(owned)[k := None]
      requires entities[i].Private() && (if old(owned)[k].Some? then entities[i].props == old(owned)[k].value
          else fresh(entities[i].props.buf))
      requires entities[i].Valid() && slices == old(slices)
      requires shown == old(shown).(rows := old(shown).rows[i := entities[i].Shown()],
          owned := old(shown).owned[k := None])
      ensures Inv()
    {
      EntitiesKept(i);
      SlicesKept(i);
      OwnedKept(i);
      TakeSealing(i, k);
    }

    method Take(i: nat, k: nat)
      requires Inv() && i < |entities| && k < |owned|
      modifies this, entities[i]
      ensures Inv() && fresh(repr - old(repr)) && shown == TakeOwned(old(shown), i, k)
    {
      assert EntityOk(entities[i], shown.rows[i]);
      assert owned[k].Some? ==> HeaderOk(owned[k].value, shown.owned[k].value);
      var err, left := entities[i].SetOwnedProperties(owned[k]);
      repr := repr + {entities[i].props.buf};
      if err.Some? {
        StepKeeps(i);
      } else {
        owned := owned[k := left];
        shown := shown.(rows := shown.rows[i := entities[i].Shown()], owned := shown.owned[k := None]);
        TakeKeeps(i, k);
      }
    }

    // ---------- steps that seal an array ----------

    /** Entity i gave up writing its array, which is now sealed; all contents stay. */
    twostate predicate SealedOnly(i: nat)
      requires i < |old(entities)|
      reads *
    {
      && entities == old(entities) && slices == old(slices) && owned == old(owned) && repr == old(repr)
      && entities[i].props == old(entities[i].props) && !entities[i].Private()
          && sealed == old(sealed) + {entities[i].props.buf}
      && (forall o :: o in old(repr) && o != entities[i] ==> unchanged(o))
    }

    twostate lemma SealEntities(i: nat)
      requires old(Inv()) && i < |old(entities)| && SealedOnly(i)
      requires entities[i].Valid() && shown.rows == old(shown).rows[i := entities[i].Shown()]
      ensures EntitiesShown()
    {
      forall j | 0 <= j < |entities| && j != i
        ensures EntityOk(entities[j], shown.rows[j])
      {
        assert old(EntityOk(entities[j], shown.rows[j]));
        assert unchanged(entities[j]) && unchanged(entities[j].props.buf);
      }
      assert old(EntityOk(entities[i], shown.rows[i]));
      assert EntityOk(entities[i], shown.rows[i]);
    }

    twostate lemma SealOutside(i: nat)
      requires old(Inv()) && i < |old(entities)| && SealedOnly(i) && shown.slices == old(shown).slices
          && shown.owned == old(shown).owned
      ensures SlicesShown() && OwnedShown()
    {
      forall k | 0 <= k < |slices|
        ensures HeaderOk(slices[k], shown.slices[k])
      {
        assert old(HeaderOk(slices[k], shown.slices[k]));
        assert unchanged(slices[k].buf);
      }
      forall k | 0 <= k < |owned| && owned[k].Some?
        ensures HeaderOk(owned[k].value, shown.owned[k].value)
      {
        assert old(HeaderOk(owned[k].value, shown.owned[k].value));
        assert unchanged(owned[k].value.buf);
      }
    }

    twostate lemma SealSealing(i: nat)
      requires old(Inv()) && i < |old(entities)| && SealedOnly(i)
      ensures EntitySealing() && EntityExclusive() && OwnedExclusive()
    {
      forall j | 0 <= j < |entities| && j != i
        ensures entities[j].props == old(entities[j].props) && entities[j].Private() == old(entities[j].Private())
      {
        assert old(EntityOk(entities[j], shown.rows[j]));
        assert unchanged(entities[j]);
      }
    }

    twostate lemma SealKeeps(i: nat)
      requires old(Inv()) && i < |old(entities)| && SealedOnly(i)
      requires entities[i].Valid() && shown == old(shown).(rows := old(shown).rows[i := entities[i].Shown()])
      ensures Inv()
    {
      SealEntities(i);
      SealOutside(i);
      SealSealing(i);
    }

    method FreezeEntity(i: nat)
      requires Inv() && i < |entities|
      modifies this, entities[i]
      ensures Inv() && fresh(repr - old(repr))
          && shown == old(shown).(rows := old(shown).rows[i := old(shown).rows[i].(frozen := true)])
    {
      assert EntityOk(entities[i], shown.rows[i]);
      entities[i].Freeze();
      sealed := sealed + {entities[i].props.buf};
      shown := shown.(rows := shown.rows[i := entities[i].Shown()]);
      SealKeeps(i);
    }

    // ---------- steps that add something ----------

    /** Nothing in use was written, and no array in use got sealed. */
    twostate predicate OnlyAdded()
      reads *
    {
      && this !in repr && old(repr) <= repr && old(sealed) <= sealed
      && (forall b :: b in sealed && b in old(repr) ==> b in old(sealed))
      && (forall o :: o in old(repr) ==> unchanged(o))
    }

    twostate lemma EntitiesStay()
      requires old(Inv()) && OnlyAdded() && |old(entities)| <= |entities|
      ensures forall j :: 0 <= j < |old(entities)| && entities[j] == old(entities)[j] ==>
        && EntityOk(entities[j], old(shown).rows[j]) && entities[j].props == old(entities[j].props)
        && (entities[j].Private() <==> entities[j].props.buf !in sealed) && entities[j].props.buf in old(repr)
    {
      forall j | 0 <= j < |old(entities)| && entities[j] == old(entities)[j]
        ensures EntityOk(entities[j], old(shown).rows[j]) && entities[j].props == old(entities[j].props)
        ensures (entities[j].Private() <==> entities[j].props.buf !in sealed) && entities[j].props.buf in old(repr)
      {
        assert old(EntityOk(entities[j], shown.rows[j]));
        assert unchanged(entities[j]) && unchanged(entities[j].props.buf);
      }
    }

    twostate lemma SlicesStay()
      requires old(Inv()) && OnlyAdded() && |old(slices)| <= |slices|
      ensures forall k :: 0 <= k < |old(slices)| && slices[k] == old(slices)[k] ==>
          HeaderOk(slices[k], old(shown).slices[k]) && slices[k].buf in sealed
    {
      forall k | 0 <= k < |old(slices)| && slices[k] == old(slices)[k]
        ensures HeaderOk(slices[k], old(shown).slices[k]) && slices[k].buf in sealed
      {
        assert old(HeaderOk(slices[k], shown.slices[k]));
        assert unchanged(slices[k].buf);
      }
    }

    twostate lemma OwnedStay()
      requires old(Inv()) && OnlyAdded() && |old(owned)| <= |owned|
      ensures forall k :: 0 <= k < |old(owned)| && owned[k] == old(owned)[k] && owned[k].Some? ==>
        HeaderOk(owned[k].value, old(shown).owned[k].value) && owned[k].value.buf !in sealed
            && owned[k].value.buf in old(repr)
    {
      forall k | 0 <= k < |old(owned)| && owned[k] == old(owned)[k] && owned[k].Some?
        ensures HeaderOk(owned[k].value, old(shown).owned[k].value) && owned[k].value.buf !in sealed
            && owned[k].value.buf in old(repr)
      {
        assert old(HeaderOk(owned[k].value, shown.owned[k].value));
        assert unchanged(owned[k].value.buf);
      }
    }

    twostate lemma AddEntityExclusive(new n: Entity)
      requires old(Inv()) && OnlyAdded() && entities == old(entities) + [n] && owned == old(owned)
      requires n !in old(repr) && (n.props.buf in old(repr) ==> n.props.buf in sealed)
      ensures EntityExclusive() && OwnedExclusive()
    {
      EntitiesStay();
      OwnedStay();
      assert forall j :: 0 <= j < |old(entities)| ==> entities[j] == old(entities)[j] && entities[j] in old(repr) by {
        forall j | 0 <= j < |old(entities)|
          ensures entities[j] == old(entities)[j] && entities[j] in old(repr)
        {
          assert old(EntityOk(entities[j], shown.rows[j]));
        }
      }
    }

    twostate lemma AddEntityKeeps(new n: Entity)
      requires old(Inv()) && OnlyAdded() && entities == old(entities) + [n] && slices == old(slices)
          && owned == old(owned)
      requires n !in old(repr) && (n.props.buf in old(repr) ==> n.props.buf in sealed) && (n.Private()
          <==> n.props.buf !in sealed)
      requires n in repr && n.props.buf in repr && n.Valid()
          && shown == old(shown).(rows := old(shown).rows + [n.Shown()])
      ensures Inv()
    {
      EntitiesStay();
      SlicesStay();
      OwnedStay();
      AddEntityExclusive(n);
    }

    method AddNew(id: int, face: Face)
      requires Inv()
      modifies this
      ensures Inv() && fresh(repr - old(repr))
      ensures shown == old(shown).(rows := old(shown).rows + [Row(id, face, 0, map[], false, None, None)])
    {
      var n := new Entity(id, face);
      entities, repr := entities + [n], repr + {n, n.props.buf};
      shown := shown.(rows := shown.rows + [n.Shown()]);
      AddEntityKeeps(n);
    }

    method AddCopy(i: nat)
      requires Inv() && i < |entities|
      modifies this
      ensures Inv() && fresh(repr - old(repr))
          && shown == old(shown).(rows := old(shown).rows + [old(shown).rows[i].(frozen := false)])
    {
      assert EntityOk(entities[i], shown.rows[i]);
      var n := entities[i].DeepCopy();
      entities, repr := entities + [n], repr + {n, n.props.buf};
      shown := shown.(rows := shown.rows + [n.Shown()]);
      AddEntityKeeps(n);
    }

    method AddCompact(i: nat)
      requires Inv() && i < |entities|
      modifies this, entities[i]
      ensures Inv() && fresh(repr - old(repr))
          && shown == old(shown).(rows := old(shown).rows + [old(shown).rows[i].(frozen := true)])
    {
      assert EntityOk(entities[i], shown.rows[i]);
      var n := entities[i].CompactFrozenCopy();
      sealed := sealed + {entities[i].props.buf};
      SealKeeps(i);
      label Shared:
      entities, repr := entities + [n], repr + {n, n.props.buf};
      shown := shown.(rows := shown.rows + [n.Shown()]);
      AddEntityKeeps@Shared(n);
    }

    /** Adds a slice whose array is sealed. */
    twostate lemma AddSliceKeeps(new h: Header)
      requires old(Inv()) && OnlyAdded() && entities == old(entities) && owned == old(owned)
      requires slices == old(slices) + [h] && h.buf in repr && Good(h) && h.buf in sealed
      requires shown == old(shown).(slices := old(shown).slices + [Props(h)])
      ensures Inv()
    {
      EntitiesStay();
      SlicesStay();
      OwnedStay();
    }

    method AddAlias(i: nat)
      requires Inv() && i < |entities|
      modifies this
      ensures Inv() && fresh(repr - old(repr))
      ensures shown == if old(shown).rows[i].frozen then
          old(shown).(slices := old(shown).slices + [old(shown).rows[i].props]) else old(shown)
    {
      assert EntityOk(entities[i], shown.rows[i]);
      var r := entities[i].FrozenPropertiesAlias();
      if r.Some? {
        slices := slices + [r.value];
        shown := shown.(slices := shown.slices + [Props(r.value)]);
        AddSliceKeeps(r.value);
      }
    }

    /** A slice built from a map, for installing on several entities. */
    method AddSlice(m: Bindings)
      requires Inv()
      modifies this
      ensures Inv() && fresh(repr - old(repr))
          && shown == if MapAccepted(m) then old(shown).(slices := old(shown).slices + [m]) else old(shown)
    {
      var b := NewPropertySlice(m);
      if b.Built? {
        var h := Allocate(b.ps, 0);
        slices, sealed, repr := slices + [h], sealed + {h.buf}, repr + {h.buf};
        shown := shown.(slices := shown.slices + [Props(h)]);
        AddSliceKeeps(h);
      }
    }

    /** Adds an owned slice with an array of its own. */
    twostate lemma AddOwnedKeeps(new h: Header)
      requires old(Inv()) && OnlyAdded() && entities == old(entities) && slices == old(slices)
      requires owned == old(owned) + [Some(h)] && h.buf in repr && Good(h) && h.buf !in old(repr) && h.buf !in sealed
      requires shown == old(shown).(owned := old(shown).owned + [Some(Props(h))])
      ensures Inv()
    {
      EntitiesStay();
      SlicesStay();
      OwnedStay();
    }

    method AddOwned(m: Bindings)
      requires Inv()
      modifies this
      ensures Inv() && fresh(repr - old(repr))
          && shown == if MapAccepted(m) then old(shown).(owned := old(shown).owned + [Some(m)]) else old(shown)
    {
      var b := NewPropertySlice(m);
      if b.Built? {
        var h := Allocate(b.ps, 0);
        owned, repr := owned + [Some(h)], repr + {h.buf};
        shown := shown.(owned := shown.owned + [Some(Props(h))]);
        AddOwnedKeeps(h);
      }
    }

    // ---------- runs ----------

    method DoAt(op: Op)
      requires Inv() && !op.New? && !op.NewSlice? && !op.NewOwned? && op.i < |entities|
      modifies this, repr
      ensures Inv() && fresh(repr - old(repr)) && shown == ApplyAt(old(shown), op, old(shown).rows[op.i])
    {
      assert EntityOk(entities[op.i], shown.rows[op.i]);
      match op {
        case SetProperty(i, key, value) => Put(i, key, value);
        case DeleteProperty(i, key) => Remove(i, key);
        case SetProperties(i, ps) => Replace(i, ps);
        case SetVersion(i, _) => Revise(i, op);
        case SetTemporal(i, _) => Revise(i, op);
        case SetIntegrity(i, _) => Revise(i, op);
        case Freeze(i) => FreezeEntity(i);
        case CompactFrozenCopy(i) => AddCompact(i);
        case DeepCopy(i) => AddCopy(i);
        case FrozenPropertiesAlias(i) =>
          if entities[i].face.NodeFace? {
            AddAlias(i);
          }
        case SetPropertiesCanonicalShared(i, k) =>
          if k < |slices| && entities[i].face.NodeFace? {
            Share(i, k);
          }
        case SetOwnedProperties(i, k) =>
          if k < |owned| {
            Take(i, k);
          }
      }
    }

    /** One operation, carried out on shared storage, has the effect it has on unshared entities. */
    method Do(op: Op)
      requires Inv()
      modifies this, repr
      ensures Inv() && fresh(repr - old(repr)) && shown == Apply(old(shown), op)
    {
      if op.New? {
        AddNew(op.id, op.face);
      } else if op.NewSlice? {
        AddSlice(op.m);
      } else if op.NewOwned? {
        AddOwned(op.m);
      } else if op.i < |entities| {
        DoAt(op);
      }
    }
  }

  /**
   Any run of operations on entities that share arrays shows, at its end, exactly the entities of the same run
   on values that share nothing.
  */
  method Run(ops: seq<Op>) returns (w: World)
    ensures w.Inv() && w.shown == ApplyAll(Empty(), ops)
  {
    w := new World();
    for t := 0 to |ops|
      invariant w.Inv() && fresh(w) && fresh(w.repr)
      invariant w.shown == ApplyAll(Empty(), ops[..t])
    {
      w.Do(ops[t]);
      assert ops[..t + 1][..t] == ops[..t];
    }
    assert ops[..|ops|] == ops;
  }

  /** A property read after any run is the one that the unshared row binds. */
  method ReadAfter(ops: seq<Op>, i: nat, key: Bytes) returns (r: Option<Value>)
    requires i < |ApplyAll(Empty(), ops).rows|
    ensures var props := ApplyAll(Empty(), ops).rows[i].props; r == if key in props then Some(props[key]) else None
  {
    var w := Run(ops);
    assert w.EntityOk(w.entities[i], w.shown.rows[i]);
    r := w.entities[i].GetProperty(key);
  }

  /** What was written is read, however the row's storage was shared before and after the write. */
  method WrittenIsRead(before: seq<Op>, i: nat, key: Bytes, value: Value, after: seq<Op>) returns (r: Option<Value>)
    requires i < |ApplyAll(Empty(), before).rows| && !ApplyAll(Empty(), before).rows[i].frozen
    requires EntryFault(key, value).None? && forall t :: 0 <= t < |after| ==> !Touches(after[t], i, key)
    ensures r == Some(value)
  {
    WriteLasts(before, i, key, value, after);
    r := ReadAfter(before + [SetProperty(i, key, value)] + after, i, key);
  }
}
