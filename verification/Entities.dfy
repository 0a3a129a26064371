/**
 Nodes and relationships in memory, two structures with the same property storage and the same operations on it.
 Frozen copies and decoders share the backing array of an entity's properties; an entity marked as sharing
 copies the array before it writes in place.
*/
module Entities {
  import opened Options
  import opened ByteStrings
  import opened PropertyEncoding
  import opened PropertySlices
  import opened PropertyArrays
  import opened CompactMeta
  import opened Rows

  datatype Error = FrozenEntity | InvalidEntry(fault: Fault)

  class Entity {
    const id: int
    const face: Face
    var version: nat
    var props: Header
    var frozen: bool
    var sharedProps: bool
    var temporal: Option<TemporalMetadata>
    var integrity: Option<Integrity>
    var meta: Option<Meta>

    /** The slice is sorted; compact metadata belongs to frozen entities and replaces both full records. */
    ghost predicate Valid()
      reads this, props.buf
    {
      && Good(props) && Fitting(face, integrity)
      && (meta.Some? ==> frozen && temporal.None? && integrity.None? && meta.value.MetaOfRel? == face.RelFace?)
    }

    /** Neither frozen nor sharing: the entity may write its backing array. */
    predicate Private()
      reads this
    {
      !frozen && !sharedProps
    }

    ghost function Writable(): set<object>
      reads this
    {
      if Private() then {props.buf} else {}
    }

    /** What readers see. */
    ghost function Shown(): Row
      requires Valid()
      reads this, props.buf
    {
      Row(id, face, version, Props(props), frozen,
          if meta.Some? then Some(MetaTemporal(meta.value)) else temporal,
          if meta.Some? then Some(MetaIntegrity(meta.value)) else integrity)
    }

    constructor (id: int, face: Face)
      ensures Valid() && Private() && fresh(props.buf)
      ensures Shown() == Row(id, face, 0, map[], false, None, None)
    {
      this.id, this.face := id, face;
      version, frozen, sharedProps := 0, false, false;
      temporal, integrity, meta := None, None, None;
      var buf := new Property[0];
      props := Header(buf, 0);
    }

    /** Gives the entity its own backing array if the current one is shared. */
    method OwnProperties()
      requires Valid() && !frozen
      modifies this
      ensures Valid() && Private() && Shown() == old(Shown())
      ensures if old(sharedProps) then fresh(props.buf) else props == old(props)
    {
      if sharedProps {
        props := Allocate(props.buf[..props.len], 0);
        sharedProps := false;
      }
    }

    /** An entity with the given parts, as the copying operations assemble it. */
    constructor Assemble(
      of: Entity, props: Header, frozen: bool,
      temporal: Option<TemporalMetadata>, integrity: Option<Integrity>, meta: Option<Meta>)
      ensures id == of.id && face == of.face && version == of.version
      ensures this.props == props && this.frozen == frozen && !sharedProps
      ensures this.temporal == temporal && this.integrity == integrity && this.meta == meta
    {
      id, face, version := of.id, of.face, of.version;
      this.props, this.frozen, sharedProps := props, frozen, false;
      this.temporal, this.integrity, this.meta := temporal, integrity, meta;
    }

    method SetProperty(key: Bytes, value: Value) returns (err: Option<Error>)
      requires Valid()
      modifies this, Writable()
      ensures Valid() && Shown() == RowSet(old(Shown()), key, value)
      ensures err.None? ==> Shown() == old(Shown()).(props := old(Shown()).props[key := value])
      ensures err.Some? ==> Shown() == old(Shown())
      ensures frozen == old(frozen) && (if Private() then (old(Private())
          && props.buf == old(props.buf)) || fresh(props.buf) else props == old(props))
      ensures old(Private()) ==> Private()
      ensures err == if frozen then Some(FrozenEntity)
          else match EntryFault(key, value) case Some(f) => Some(InvalidEntry(f)) case None => None
    {
      if frozen {
        return Some(FrozenEntity);
      }
      OwnProperties();
      var f := KeyFault(key);
      if f.Some? {
        return Some(InvalidEntry(f.value));
      }
      var ok := Validate(value, 0);
      if !ok {
        return Some(InvalidEntry(BadValue));
      }
      props := Set(props, key, value);
      err := None;
    }

    method DeleteProperty(key: Bytes) returns (err: Option<Error>, found: bool)
      requires Valid()
      modifies this, Writable()
      ensures Valid() && Shown() == RowDelete(old(Shown()), key)
      ensures err.None? ==> Shown() == old(Shown()).(props := old(Shown()).props - {key})
      ensures err.Some? ==> Shown() == old(Shown())
      ensures frozen == old(frozen) && (if Private() then (old(Private())
          && props.buf == old(props.buf)) || fresh(props.buf) else props == old(props))
      ensures old(Private()) ==> Private()
      ensures err == if frozen then Some(FrozenEntity)
          else if KeyFault(key) == Some(ReservedKey) then Some(InvalidEntry(ReservedKey)) else None
      ensures found <==> err.None? && key in old(Shown()).props
    {
      if frozen {
        return Some(FrozenEntity), false;
      }
      OwnProperties();
      if KeyFault(key) == Some(ReservedKey) {
        return Some(InvalidEntry(ReservedKey)), false;
      }
      err := None;
      props, found := Delete(props, key);
    }

    /** Replaces all properties by a canonical copy of ps. */
    method SetProperties(ps: PropertySlice) returns (err: Option<Error>)
      requires Valid()
      modifies this
      ensures Valid() && Shown() == RowReplace(old(Shown()), ps)
      ensures err.None? ==> Shown() == old(Shown()).(props := Contents(ps))
      ensures err.Some? ==> Shown() == old(Shown())
      ensures frozen == old(frozen) && (if Private() then (old(Private())
          && props.buf == old(props.buf)) || fresh(props.buf) else props == old(props))
      ensures old(Private()) ==> Private()
      ensures err.None? <==> !frozen && CanonicalAccepts(ps)
    {
      if frozen {
        return Some(FrozenEntity);
      }
      var r := CanonicalPropertySlice(ps);
      if r.Refused? {
        return Some(InvalidEntry(r.fault));
      }
      props := Allocate(r.ps, 0);
      sharedProps := false;
      err := None;
    }

    /** Aliases a slice without any check, not even whether the node is frozen; nodes only. */
    method SetPropertiesCanonicalShared(h: Header)
      requires Valid() && Good(h)
      modifies this
      ensures Valid() && Shown() == old(Shown()).(props := Props(h))
      ensures props == h && sharedProps && frozen == old(frozen)
    {
      props := h;
      sharedProps := true;
    }

    /**
     Moves an owned slice into the entity; what is left of it is returned. A frozen entity refuses and consumes
     nothing.
    */
    method SetOwnedProperties(owned: Option<Header>) returns (err: Option<Error>, left: Option<Header>)
      requires Valid() && (owned.Some? ==> Good(owned.value))
      modifies this
      ensures Valid() && frozen == old(frozen)
      ensures frozen ==> err == Some(FrozenEntity) && left == owned && props == old(props) && Shown() == old(Shown())
      ensures !frozen ==>
        err == None && left == None && Private() && (if owned.Some? then props == owned.value else fresh(props.buf))
      ensures !frozen ==> Shown() == old(Shown()).(props := if owned.Some? then Props(owned.value) else map[])
    {
      if frozen {
        return Some(FrozenEntity), owned;
      }
      sharedProps := false;
      err, left := None, None;
      if owned.None? {
        props := Allocate([], 0);
      } else {
        props := owned.value;
      }
    }

    /** The void mutators panic on a frozen entity and change nothing. */
    method SetVersion(version: nat) returns (panicked: bool)
      requires Valid()
      modifies this`version
      ensures Valid() && panicked == frozen && Shown() == if frozen then old(Shown())
          else old(Shown()).(version := version)
    {
      panicked := frozen;
      if !frozen {
        this.version := version;
      }
    }

    method SetTemporal(tm: Option<TemporalMetadata>) returns (panicked: bool)
      requires Valid()
      modifies this`temporal
      ensures Valid() && panicked == frozen && Shown() == if frozen then old(Shown()) else old(Shown()).(temporal := tm)
    {
      panicked := frozen;
      if !frozen {
        temporal := tm;
      }
    }

    method SetIntegrity(ig: Option<Integrity>) returns (panicked: bool)
      requires Valid() && Fitting(face, ig)
      modifies this`integrity
      ensures Valid() && panicked == frozen && Shown() == if frozen then old(Shown())
          else old(Shown()).(integrity := ig)
    {
      panicked := frozen;
      if !frozen {
        integrity := ig;
      }
    }

    method Freeze()
      requires Valid()
      modifies this`frozen
      ensures Valid() && frozen && Shown() == old(Shown()).(frozen := true)
    {
      frozen := true;
    }

    /** The property slice itself, of a frozen node only; relationships have no such operation. */
    method FrozenPropertiesAlias() returns (r: Option<Header>)
      requires Valid()
      ensures r == if frozen then Some(props) else None
    {
      r := if frozen then Some(props) else None;
    }

    /** A frozen copy that shares the backing array, with compact metadata where that is exact. */
    method CompactFrozenCopy() returns (cp: Entity)
      requires Valid()
      modifies this`sharedProps
      ensures fresh(cp) && cp.Valid() && cp.frozen && cp.props == props && cp.Shown() == old(Shown()).(frozen := true)
      ensures Valid() && Shown() == old(Shown()) && !Private()
      ensures frozen ==> sharedProps == old(sharedProps)
      ensures cp.meta.Some? <==> meta.Some? || Packable(temporal, integrity)
    {
      if !frozen {
        sharedProps := true;
      }
      if meta.Some? {
        cp := new Entity.Assemble(this, props, true, None, None, meta);
        return;
      }
      var m := Pack(temporal, integrity);
      if m.Some? {
        cp := new Entity.Assemble(this, props, true, None, None, m);
      } else {
        cp := new Entity.Assemble(this, props, true, temporal, integrity, None);
      }
    }

    /** An independent mutable copy in the ordinary form. */
    method DeepCopy() returns (cp: Entity)
      requires Valid()
      ensures fresh(cp) && fresh(cp.props.buf) && cp.Valid() && cp.Private() && cp.meta.None?
      ensures cp.Shown() == Shown().(frozen := false)
    {
      var h := Allocate(props.buf[..props.len], 0);
      if meta.Some? {
        cp := new Entity.Assemble(this, h, false, Some(MetaTemporal(meta.value)), Some(MetaIntegrity(meta.value)),
            None);
      } else {
        cp := new Entity.Assemble(this, h, false, temporal, integrity, None);
      }
    }

    // ---------- reading ----------

    function Metadata(): Stamps
      reads this
    {
      if meta.None? then Ordinary(temporal)
      else match meta.value
           case MetaOfNode(m) => Compact(m.validFrom, m.validTo, m.txFrom)
           case MetaOfRel(m) => Compact(m.validFrom, m.validTo, m.txFrom)
    }

    method GetProperty(key: Bytes) returns (r: Option<Value>)
      requires Valid()
      ensures r == if key in Shown().props then Some(Shown().props[key]) else None
    {
      r := Get(props, key);
    }

    method GetTemporal() returns (r: Option<TemporalMetadata>)
      requires Valid()
      ensures r == Shown().temporal
    {
      if frozen && temporal.Some? {
        return temporal;
      }
      if meta.Some? {
        return Some(MetaTemporal(meta.value));
      }
      r := temporal;
    }

    method GetIntegrity() returns (r: Option<Integrity>)
      requires Valid()
      ensures r == Shown().integrity
    {
      r := if meta.Some? then Some(MetaIntegrity(meta.value)) else integrity;
    }

    /** Bounds, stamps and start are read off either form as off the full metadata that the row shows. */
    method GetStamps(a: ValidAxis, mint: Instant)
        returns (range: Option<(Instant, Instant)>, tx: (Instant, Instant, Instant), start: Instant)
      requires Valid()
      ensures range == ValidRange(Ordinary(Shown().temporal)) && tx == TxStamps(Ordinary(Shown().temporal))
      ensures start == Start(a, Shown().temporal, mint)
    {
      range, tx, start := ValidRange(Metadata()), TxStamps(Metadata()), RowStart(a, Metadata(), mint);
      AccessorsIgnoreTheForm(a, Metadata(), mint);
      AccessorsIgnoreTheForm(a, Ordinary(Shown().temporal), mint);
    }
  }
}
