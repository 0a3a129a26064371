/**
 The compact metadata of frozen rows: three instants and a hash instead of the two full records. Packing
 is an exact re-encoding or is refused, and every accessor reads the same from either form.
*/
module CompactMeta {
  import opened Options
  import opened ByteStrings
  import opened PropertyEncoding

  type Instant = int

  datatype TemporalMetadata = TemporalMetadata(
    validFrom: Instant, validTo: Instant, txFrom: Instant, txTo: Instant,
    createdAt: Instant, updatedAt: Instant, deletedAt: Instant,
    createdBy: Bytes, updatedBy: Bytes, baseEntityID: int,
    retracted: bool, void: bool, deleteKeptValidTo: bool)

  /** Who vouches for a version; a missing signature differs from an empty one. */
  datatype Provenance = Provenance(prevHash: Bytes, authorID: Bytes, signature: Option<Bytes>, authorizedBy: Bytes,
      authorizationLevel: Byte)

  const NO_PROVENANCE := Provenance([], [], None, [], 0)

  datatype NodeIntegrity = NodeIntegrity(hash: Bytes, provenance: Provenance)

  datatype RelIntegrity = RelIntegrity(hash: Bytes, fromNodeHash: Bytes, toNodeHash: Bytes, provenance: Provenance)

  datatype NodeMeta = NodeMeta(validFrom: Instant, validTo: Instant, txFrom: Instant, hash: Bytes)

  datatype RelMeta = RelMeta(validFrom: Instant, validTo: Instant, txFrom: Instant, hash: Bytes, fromNodeHash: Bytes,
      toNodeHash: Bytes, noHash: bool)

  // ---------- hashes as hex ----------

  function HexDigit(n: int): Byte
    requires 0 <= n < 16
  {
    if n < 10 then 48 + n else 87 + n
  }

  /** The value of a lower-case hex digit. */
  function Nibble(c: Byte): (r: Option<int>)
    ensures r.Some? ==> 0 <= r.value < 16 && HexDigit(r.value) == c
    ensures forall n :: 0 <= n < 16 && HexDigit(n) == c ==> r == Some(n)
  {
    if 48 <= c <= 57 then Some(c - 48) else if 97 <= c <= 102 then Some(c - 87) else None
  }

  function Hex(bs: Bytes): (s: Bytes)
    ensures |s| == 2 * |bs|
  {
    if bs == [] then [] else Hex(bs[..|bs| - 1]) + [HexDigit(bs[|bs| - 1] / 16), HexDigit(bs[|bs| - 1] % 16)]
  }

  lemma {:induction false} HexAt(bs: Bytes, i: nat)
    requires i < |bs|
    ensures Hex(bs)[2 * i] == HexDigit(bs[i] / 16) && Hex(bs)[2 * i + 1] == HexDigit(bs[i] % 16)
    decreases |bs|
  {
    if i < |bs| - 1 {
      HexAt(bs[..|bs| - 1], i);
    }
  }

  lemma HexSnoc(bs: Bytes, b: Byte, hi: int, lo: int)
    requires 0 <= hi < 16 && 0 <= lo < 16 && b == 16 * hi + lo
    ensures Hex(bs + [b]) == Hex(bs) + [HexDigit(hi), HexDigit(lo)]
  {
    assert (bs + [b])[..|bs|] == bs;
  }

  lemma TwoMore(s: Bytes, j: nat)
    requires j + 2 <= |s|
    ensures s[..j + 2] == s[..j] + [s[j], s[j + 1]]
  {
  }

  /** 64 lower-case hex digits. */
  predicate CanonicalHash(s: Bytes) { |s| == 64 && forall i :: 0 <= i < 64 ==> Nibble(s[i]).Some? }

  /** The 32 bytes that a canonical hash spells; other strings are refused. */
  method DecodeHash(s: Bytes) returns (r: Option<Bytes>)
    ensures r.Some? <==> CanonicalHash(s)
    ensures r.Some? ==> |r.value| == 32 && Hex(r.value) == s
  {
    if |s| != 64 {
      return None;
    }
    var bs: Bytes := [];
    for i := 0 to 32
      invariant |bs| == i && Hex(bs) == s[..2 * i]
      invariant forall j :: 0 <= j < 2 * i ==> Nibble(s[j]).Some?
    {
      var hi, lo := Nibble(s[2 * i]), Nibble(s[2 * i + 1]);
      if hi.None? || lo.None? {
        return None;
      }
      var b: Byte := 16 * hi.value + lo.value;
      HexSnoc(bs, b, hi.value, lo.value);
      TwoMore(s, 2 * i);
      bs := bs + [b];
    }
    assert s[..64] == s;
    r := Some(bs);
  }

  /** Distinct raw hashes have distinct canonical strings. */
  lemma HexInjective(a: Bytes, b: Bytes)
    requires |a| == |b| == 32
    ensures CanonicalHash(Hex(a))
    ensures Hex(a) == Hex(b) <==> a == b
  {
    forall i | 0 <= i < 64
      ensures Nibble(Hex(a)[i]).Some?
    {
      HexAt(a, i / 2);
    }
    if Hex(a) == Hex(b) {
      forall i | 0 <= i < 32
        ensures a[i] == b[i]
      {
        HexAt(a, i);
        HexAt(b, i);
      }
    }
  }

  // ---------- packing ----------

  function Bare(validFrom: Instant, validTo: Instant, txFrom: Instant): TemporalMetadata {
    TemporalMetadata(validFrom, validTo, txFrom, 0, 0, 0, 0, [], [], 0, false, false, false)
  }

  predicate TemporalFits(tm: TemporalMetadata) {
    && tm.txTo == 0 && tm.createdAt == 0 && tm.updatedAt == 0 && tm.deletedAt == 0
    && tm.createdBy == [] && tm.updatedBy == [] && tm.baseEntityID == 0 && !tm.retracted && !tm.void
        && !tm.deleteKeptValidTo
  }

  function NodeTemporal(m: NodeMeta): TemporalMetadata { Bare(m.validFrom, m.validTo, m.txFrom) }

  function RelTemporal(m: RelMeta): TemporalMetadata { Bare(m.validFrom, m.validTo, m.txFrom) }

  function RebuildNode(m: NodeMeta): NodeIntegrity { NodeIntegrity(m.hash, NO_PROVENANCE) }

  function RebuildRel(m: RelMeta): RelIntegrity {
    RelIntegrity(if m.noHash then [] else Hex(m.hash), m.fromNodeHash, m.toNodeHash, NO_PROVENANCE)
  }

  /** Packs exactly the metadata that some compact form rebuilds, and then into that form. */
  function CompactNode(tm: Option<TemporalMetadata>, ig: Option<NodeIntegrity>): (r: Option<NodeMeta>)
    ensures r.Some? ==> tm == Some(NodeTemporal(r.value)) && ig == Some(RebuildNode(r.value))
    ensures r.None? ==> forall m :: !(tm == Some(NodeTemporal(m)) && ig == Some(RebuildNode(m)))
  {
    if tm.None? || ig.None? || !TemporalFits(tm.value) || ig.value.provenance.prevHash != []
        || ig.value.provenance.authorID != []
      || ig.value.provenance.signature != None || ig.value.provenance.authorizedBy != []
          || ig.value.provenance.authorizationLevel != 0 then None
    else Some(NodeMeta(tm.value.validFrom, tm.value.validTo, tm.value.txFrom, ig.value.hash))
  }

  /** Some compact form rebuilds the hash: it is empty or canonical. */
  predicate HashFits(h: Bytes) { h == [] || CanonicalHash(h) }

  /** Packs relationship metadata: exact where it succeeds, and refused exactly where no compact form would be. */
  method CompactRel(tm: Option<TemporalMetadata>, ig: Option<RelIntegrity>) returns (r: Option<RelMeta>)
    ensures r.Some? <==>
      tm.Some? && ig.Some? && TemporalFits(tm.value) && ig.value.provenance == NO_PROVENANCE && HashFits(ig.value.hash)
    ensures r.Some? ==>
      tm == Some(RelTemporal(r.value)) && ig == Some(RebuildRel(r.value)) && (r.value.noHash || |r.value.hash| == 32)
  {
    if tm.None? || ig.None? || !TemporalFits(tm.value) || ig.value.provenance.prevHash != []
        || ig.value.provenance.authorID != []
      || ig.value.provenance.signature != None || ig.value.provenance.authorizedBy != []
          || ig.value.provenance.authorizationLevel != 0 {
      return None;
    }
    var t, g := tm.value, ig.value;
    var m := RelMeta(t.validFrom, t.validTo, t.txFrom, seq(32, _ => 0), g.fromNodeHash, g.toNodeHash, false);
    if g.hash == [] {
      return Some(m.(noHash := true));
    }
    var raw := DecodeHash(g.hash);
    r := if raw.Some? then Some(m.(hash := raw.value)) else None;
  }

  /** The metadata that a compact relationship form rebuilds is exactly the metadata that packs. */
  lemma RebuiltRelFits(m: RelMeta)
    requires m.noHash || |m.hash| == 32
    ensures TemporalFits(RelTemporal(m)) && RebuildRel(m).provenance == NO_PROVENANCE && HashFits(RebuildRel(m).hash)
  {
    if !m.noHash {
      HexInjective(m.hash, m.hash);
    }
  }

  // ---------- nodes and relationships alike ----------

  datatype Integrity = OfNode(node: NodeIntegrity) | OfRel(rel: RelIntegrity)

  datatype Meta = MetaOfNode(node: NodeMeta) | MetaOfRel(rel: RelMeta)

  /** The full records that a compact form stands for. */
  function MetaTemporal(m: Meta): TemporalMetadata { if m.MetaOfNode? then NodeTemporal(m.node)
      else RelTemporal(m.rel) }

  function MetaIntegrity(m: Meta): Integrity { if m.MetaOfNode? then OfNode(RebuildNode(m.node))
      else OfRel(RebuildRel(m.rel)) }

  /** The records hold nothing a compact form would lose. */
  predicate Packable(tm: Option<TemporalMetadata>, ig: Option<Integrity>) {
    && tm.Some? && TemporalFits(tm.value)
    && ig.Some?
    && match ig.value
       case OfNode(n) => n.provenance == NO_PROVENANCE
       case OfRel(r) => r.provenance == NO_PROVENANCE && HashFits(r.hash)
  }

  /** Packs both records exactly when nothing is lost. */
  method Pack(tm: Option<TemporalMetadata>, ig: Option<Integrity>) returns (r: Option<Meta>)
    ensures r.Some? <==> Packable(tm, ig)
    ensures r.Some? ==> tm == Some(MetaTemporal(r.value)) && ig == Some(MetaIntegrity(r.value))
  {
    if ig.None? {
      return None;
    }
    match ig.value {
      case OfNode(n) =>
        var m := CompactNode(tm, Some(n));
        r := if m.Some? then Some(MetaOfNode(m.value)) else None;
      case OfRel(g) =>
        var m := CompactRel(tm, Some(g));
        r := if m.Some? then Some(MetaOfRel(m.value)) else None;
    }
  }

  // ---------- reading either form ----------

  /** How a store records valid time. */
  datatype ValidAxis = ValidAxis(unclaimed: Instant, openEnd: Instant, noClaimStart: Instant)

  /** A row's metadata in either form, with the compact one as the three instants it holds. */
  datatype Stamps = Ordinary(temporal: Option<TemporalMetadata>) | Compact(validFrom: Instant, validTo: Instant,
      txFrom: Instant)

  function TemporalByValue(s: Stamps): Option<TemporalMetadata> {
    match s
    case Ordinary(tm) => tm
    case Compact(vf, vt, tx) => Some(Bare(vf, vt, tx))
  }

  function ValidRange(s: Stamps): Option<(Instant, Instant)> {
    match s
    case Compact(vf, vt, _) => Some((vf, vt))
    case Ordinary(tm) => if tm.None? then None else Some((tm.value.validFrom, tm.value.validTo))
  }

  /** TxFrom, TxTo and DeletedAt. */
  function TxStamps(s: Stamps): (Instant, Instant, Instant) {
    match s
    case Compact(_, _, tx) => (tx, 0, 0)
    case Ordinary(tm) => if tm.None? then (0, 0, 0) else (tm.value.txFrom, tm.value.txTo, tm.value.deletedAt)
  }

  function UntimedValidFrom(tm: Option<TemporalMetadata>, mint: Instant): Instant {
    if tm.Some? && tm.value.txFrom != 0 then tm.value.txFrom
    else if tm.Some? && tm.value.updatedAt != 0 then tm.value.updatedAt
    else mint
  }

  /** The start rule on metadata. */
  function Start(a: ValidAxis, tm: Option<TemporalMetadata>, mint: Instant): Instant {
    if tm.Some? && tm.value.validFrom != a.unclaimed then tm.value.validFrom else UntimedValidFrom(tm, mint)
  }

  /** The start rule on a row, which avoids rebuilding the metadata. */
  function RowStart(a: ValidAxis, s: Stamps, mint: Instant): Instant {
    var range, tx := ValidRange(s), TxStamps(s).0;
    if range.Some? && range.value.0 != a.unclaimed then range.value.0
    else if tx != 0 then tx
    else UntimedValidFrom(if s.Compact? then None else s.temporal, mint)
  }

  /**
   Every accessor is a function of the metadata a form stands for, whichever form it is; in particular
   the row rule for the start is the metadata rule, on any axis and for any mint instant.
  */
  lemma AccessorsIgnoreTheForm(a: ValidAxis, s: Stamps, mint: Instant)
    ensures ValidRange(s) == (match TemporalByValue(s) case None => None case Some(tm) => Some((tm.validFrom,
        tm.validTo)))
    ensures TxStamps(s) == (match TemporalByValue(s) case None => (0, 0, 0) case Some(tm) => (tm.txFrom, tm.txTo,
        tm.deletedAt))
    ensures RowStart(a, s, mint) == Start(a, TemporalByValue(s), mint)
  {
  }

  // ---------- the rules spelled out ----------

  /** The sixteen digits and where they may stand. */
  lemma HashDigits(s: Bytes)
    ensures seq(16, i requires 0 <= i < 16 => HexDigit(i)) ==
            [48, 49, 50, 51, 52, 53, 54, 55, 56, 57, 97, 98, 99, 100, 101, 102]
    ensures CanonicalHash(s) <==> |s| == 64 && forall i :: 0 <= i < 64 ==> 48 <= s[i] <= 57 || 97 <= s[i] <= 102
  {
    assert forall i :: 0 <= i < |s| ==> (Nibble(s[i]).Some? <==> 48 <= s[i] <= 57 || 97 <= s[i] <= 102);
  }

  /** The temporal records that fit are those with nothing beyond the three instants. */
  lemma FittingRecords(tm: TemporalMetadata)
    ensures TemporalFits(tm) <==>
            tm == TemporalMetadata(tm.validFrom, tm.validTo, tm.txFrom, 0, 0, 0, 0, [], [], 0, false, false, false)
    ensures Bare(tm.validFrom, tm.validTo, tm.txFrom) ==
            TemporalMetadata(tm.validFrom, tm.validTo, tm.txFrom, 0, 0, 0, 0, [], [], 0, false, false, false)
  {
  }

  /** What a compact form rebuilds, field by field. */
  lemma RebuiltRecords(n: NodeMeta, r: RelMeta)
    ensures MetaTemporal(MetaOfNode(n)) == Bare(n.validFrom, n.validTo, n.txFrom)
    ensures MetaTemporal(MetaOfRel(r)) == Bare(r.validFrom, r.validTo, r.txFrom)
    ensures MetaIntegrity(MetaOfNode(n)) == OfNode(NodeIntegrity(n.hash, Provenance([], [], None, [], 0)))
    ensures MetaIntegrity(MetaOfRel(r)) ==
            OfRel(RelIntegrity(if r.noHash then [] else Hex(r.hash), r.fromNodeHash, r.toNodeHash,
                Provenance([], [], None, [], 0)))
  {
  }

  /**
   Where a row starts: at the claimed valid-from; without a claim at its transaction start; without that at its
   last update; and a bare row at the instant its identifier was minted.
  */
  lemma StartCases(a: ValidAxis, tm: TemporalMetadata, mint: Instant)
    ensures tm.validFrom != a.unclaimed ==> Start(a, Some(tm), mint) == tm.validFrom
    ensures tm.validFrom == a.unclaimed && tm.txFrom != 0 ==> Start(a, Some(tm), mint) == tm.txFrom
    ensures tm.validFrom == a.unclaimed && tm.txFrom == 0 && tm.updatedAt != 0 ==>
      Start(a, Some(tm), mint) == tm.updatedAt
    ensures tm.validFrom == a.unclaimed && tm.txFrom == 0 && tm.updatedAt == 0 ==> Start(a, Some(tm), mint) == mint
    ensures Start(a, None, mint) == mint
  {
  }
}
