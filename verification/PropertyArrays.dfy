/**
 Property slices in memory: a header is the first len entries of a backing array, and Set and Delete
 write that array in place. Their effect on the map the slice stands for is proved here.
*/
module PropertyArrays {
  import opened Options
  import opened ByteStrings
  import opened PropertyEncoding
  import opened PropertySlices

  datatype Header = Header(buf: array<Property>, len: nat)

  ghost predicate Good(h: Header)
    reads h.buf
  {
    h.len <= h.buf.Length && SortedByKey(h.buf[..h.len])
  }

  ghost function Props(h: Header): map<Bytes, Value>
    requires Good(h)
    reads h.buf
  {
    Contents(h.buf[..h.len])
  }

  /** A new backing array that holds ps and has room for more. */
  method Allocate(ps: PropertySlice, room: nat) returns (h: Header)
    ensures fresh(h.buf) && h.buf.Length == |ps| + room && h.len == |ps| && h.buf[..h.len] == ps
  {
    var buf := new Property[|ps| + room];
    forall j | 0 <= j < |ps| {
      buf[j] := ps[j];
    }
    h := Header(buf, |ps|);
  }

  /** Grows a slice by one entry: in place while the backing array has room, else in a larger new one. */
  method Grow(h: Header) returns (g: Header)
    requires h.len <= h.buf.Length
    ensures g.buf == h.buf || fresh(g.buf)
    ensures g.len == h.len + 1 <= g.buf.Length && g.buf[..h.len] == h.buf[..h.len]
  {
    if h.len < h.buf.Length {
      g := Header(h.buf, h.len + 1);
    } else {
      var bigger := Allocate(h.buf[..h.len], h.len + 1);
      g := Header(bigger.buf, h.len + 1);
    }
  }

  /** Opens a gap at i by moving the later entries up, and fills it. */
  method ShiftIn(buf: array<Property>, i: nat, len: nat, p: Property)
    requires i <= len < buf.Length
    modifies buf
    ensures buf[..len + 1] == Inserted(old(buf[..len]), i, p)
  {
    forall j | i < j <= len {
      buf[j] := buf[j - 1];
    }
    buf[i] := p;
  }

  /** Closes the gap at i by moving the later entries down, and clears the last one. */
  method ShiftOut(buf: array<Property>, i: nat, len: nat)
    requires i < len <= buf.Length
    modifies buf
    ensures buf[..len - 1] == Removed(old(buf[..len]), i)
  {
    forall j | i <= j < len - 1 {
      buf[j] := buf[j + 1];
    }
    buf[len - 1] := Property([], Nil);
  }

  /** Inserts or overwrites an entry. */
  method Set(h: Header, key: Bytes, value: Value) returns (g: Header)
    requires Good(h)
    modifies h.buf
    ensures g.buf == h.buf || fresh(g.buf)
    ensures Good(g) && Props(g) == old(Props(h))[key := value]
  {
    ghost var ps := h.buf[..h.len];
    var i := SearchKey(h.buf[..h.len], key);
    if i < h.len && h.buf[i].key == key {
      h.buf[i] := Property(key, value);
      g := h;
      assert g.buf[..g.len] == Overwritten(ps, i, value);
      OverwrittenContents(ps, i, value);
    } else {
      g := Grow(h);
      ShiftIn(g.buf, i, h.len, Property(key, value));
      InsertedSorted(ps, i, Property(key, value));
      InsertedContents(ps, i, Property(key, value));
    }
  }

  /** Removes an entry, if present. */
  method Delete(h: Header, key: Bytes) returns (g: Header, found: bool)
    requires Good(h)
    modifies h.buf
    ensures g.buf == h.buf
    ensures Good(g) && Props(g) == old(Props(h)) - {key} && (found <==> key in old(Props(h)))
  {
    ghost var ps := h.buf[..h.len];
    var i := SearchKey(h.buf[..h.len], key);
    LookupAtPosition(ps, i, key);
    if i >= h.len || h.buf[i].key != key {
      return h, false;
    }
    ShiftOut(h.buf, i, h.len);
    RemovedContents(ps, i);
    g, found := Header(h.buf, h.len - 1), true;
  }

  /** Looks an entry up by binary search. */
  method Get(h: Header, key: Bytes) returns (r: Option<Value>)
    requires Good(h)
    ensures r == if key in Props(h) then Some(Props(h)[key]) else None
  {
    var i := SearchKey(h.buf[..h.len], key);
    LookupAtPosition(h.buf[..h.len], i, key);
    r := if i < h.len && h.buf[i].key == key then Some(h.buf[i].value) else None;
  }
}
