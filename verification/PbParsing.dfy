/** What any bytes decode to. */
module PbParsing {
  import opened Primitives
  import opened Coding
  import opened PbSchema
  import opened PbWire

  // The bytes of a length-delimited value, and what comes after it.
  function Substream(b: Bytes): (r: Option<(Bytes, Bytes)>)
    ensures r.Some? ==> |r.value.0| + |r.value.1| < |b|
  {
    match ReadVarint32(b)
    case Bad(_) => None
    case Good(n, rest) => if |rest| < n then None else Some((rest[..n], rest[n..]))
  }

  function UntilNul(b: Bytes): (r: Bytes)
    ensures r <= b && 0 !in r
  {
    if b == [] || b[0] == 0 then [] else [b[0]] + UntilNul(b[1..])
  }

  // Decodes into a field that holds was, which only a submessage is merged into.
  function ParseValue(k: Kind, was: Value, b: Bytes): (r: Option<(Value, Bytes)>)
    requires ValidKind(k) && (k.Submessage? ==> Shaped(k, was) && Fits(k, was, ToHold))
    ensures r.Some? ==> Shaped(k, r.value.0) && Fits(k, r.value.0, ToHold) && |r.value.1| < |b|
    decreases k
  {
    match k
    case Submessage(fs) =>
      (match Substream(b)
       case None => None
       case Some(s) =>
         match ParseMessage(fs, was.slots, s.0)
         case None => None
         case Some(m) => Some((Message(m.0), s.1)))
    case _ => ParseScalar(k, b)
  }

  // Decodes a value of any kind but a submessage.
  function ParseScalar(k: Kind, b: Bytes): (r: Option<(Value, Bytes)>)
    requires ValidKind(k) && !k.Submessage?
    ensures r.Some? ==> Shaped(k, r.value.0) && Fits(k, r.value.0, ToHold) && |r.value.1| < |b|
  {
    Pow256Widths();
    match k
    case Fixed32Bits => if |b| < 4 then None else ParseFixed(b, 4)
    case Fixed64Bits => if |b| < 8 then None else ParseFixed(b, 8)
    case BytesArray(_) => ParseBlob(k, b)
    case CString(_) => ParseBlob(k, b)
    case FixedBytes(_) => ParseBlob(k, b)
    case VarInt(_) => ParseInt(k, b)
    case UVarInt(_) => ParseInt(k, b)
    case SVarInt(_) => ParseInt(k, b)
  }

  function ParseInt(k: Kind, b: Bytes): (r: Option<(Value, Bytes)>)
    requires k.VarInt? || k.UVarInt? || k.SVarInt?
    requires ValidKind(k)
    ensures r.Some? ==> Shaped(k, r.value.0) && |r.value.1| < |b|
  {
    match ReadVarint64(b)
    case Bad(_) => None
    case Good(u, rest) =>
      match StoredInt(k, u)
      case None => None
      case Some(i) =>
        StoredIsShaped(k, u);
        Some((Int(i), rest))
  }

  lemma StoredIsShaped(k: Kind, u: nat)
    requires k.VarInt? || k.UVarInt? || k.SVarInt?
    requires ValidKind(k) && u < POW64 && StoredInt(k, u).Some?
    ensures Shaped(k, Int(StoredInt(k, u).value))
  {
    if k.VarInt? || k.SVarInt? {
      SignedRange(Unsigned(StoredInt(k, u).value, Pow256(k.width)), k.width);
    }
  }

  lemma SignedRange(u: nat, width: nat)
    requires width in {1, 2, 4, 8}
    ensures -Half(width) <= Signed(u, width) < Half(width)
  {
    Widths();
  }

  function ParseFixed(b: Bytes, width: nat): (r: Option<(Value, Bytes)>)
    requires (width == 4 || width == 8) && width <= |b|
    ensures r.Some? && r.value.0.Int? && 0 <= r.value.0.i < Pow256(width) && |r.value.1| < |b|
  {
    DecodesBelow(b[..width]);
    Some((Int(DecodeFixed(b[..width])), b[width..]))
  }

  lemma {:induction false} DecodesBelow(b: Bytes)
    ensures DecodeFixed(b) < Pow256(|b|)
  {
    if b != [] {
      DecodesBelow(b[1..]);
    }
  }

  // Bytes, a string that leaves room for its NUL, or bytes of a fixed number, of which none
  // stand for all zeros.
  function ParseBlob(k: Kind, b: Bytes): (r: Option<(Value, Bytes)>)
    requires k.BytesArray? || k.CString? || k.FixedBytes?
    ensures r.Some? ==> Shaped(k, r.value.0) && Fits(k, r.value.0, ToHold) && |r.value.1| < |b|
  {
    match ReadVarint32(b)
    case Bad(_) => None
    case Good(n, rest) =>
      if k.FixedBytes? && n == 0 then Some((Zero(k), rest))
      else if k.FixedBytes? && n != k.size then None
      else if k.BytesArray? && n + BYTES_OFFSET > k.size then None
      else if k.CString? && n + 1 > k.size then None
      else if |rest| < n then None
      else Some((Blob(if k.CString? then UntilNul(rest[..n]) else rest[..n]), rest[n..]))
  }

  // Items of a packed array, after those that are there.
  function ParseItems(k: Kind, items: seq<Value>, max: nat, b: Bytes): (r: Option<seq<Value>>)
    requires ValidKind(k) && !k.Submessage? && |items| <= max
    requires forall v :: v in items ==> Shaped(k, v) && Fits(k, v, ToHold)
    ensures r.Some? ==> |r.value| <= max && forall v :: v in r.value ==> Shaped(k, v) && Fits(k, v, ToHold)
    decreases |b|
  {
    if b == [] then Some(items)
    else if |items| >= max then None
    else
      match ParseScalar(k, b)
      case None => None
      case Some(p) => ParseItems(k, items + [p.0], max, p.1)
  }

  function ParseField(f: Field, s: Slot, wire: nat, b: Bytes): (r: Option<(Slot, Bytes)>)
    requires ValidField(f) && ShapedSlot(f, s) && FitsSlot(f, s, ToHold)
    ensures r.Some? ==> ShapedSlot(f, r.value.0) && FitsSlot(f, r.value.0, ToHold) && |r.value.1| <= |b|
    decreases f, 0
  {
    match f.rule
    case Required => MapFirst(ParseValue(f.kind, s.v, b), v => One(v))
    case Implicit => MapFirst(ParseValue(f.kind, s.v, b), v => One(v))
    case Optional => MapFirst(ParseValue(f.kind, s.v, b), v => Maybe(true, v))
    case OneOf(_) =>
      DefaultIsSound(f);
      MapFirst(ParseValue(f.kind, DefaultValue(f), b), v => Choice(Some(v)))
    case Repeated(max) =>
      if wire == WT_STRING && f.Packable() then
        match Substream(b)
        case None => None
        case Some(p) =>
          match ParseItems(f.kind, s.items, max, p.0)
          case None => None
          case Some(items) => Some((Many(items), p.1))
      else if |s.items| >= max then None
      else
        DefaultIsSound(f);
        MapFirst(ParseValue(f.kind, DefaultValue(f), b), v => Many(s.items + [v]))
  }

  function MapFirst(r: Option<(Value, Bytes)>, slot: Value -> Slot): (m: Option<(Slot, Bytes)>)
    ensures m == match r case None => None case Some(p) => Some((slot(p.0), p.1))
  {
    match r
    case None => None
    case Some(p) => Some((slot(p.0), p.1))
  }

  // Storing to a member of a union unsets the others.
  function Store(fs: seq<Field>, slots: seq<Slot>, i: nat, s: Slot): (r: seq<Slot>)
    requires |slots| == |fs| && i < |fs|
    ensures |r| == |slots|
  {
    seq(|slots|, j requires 0 <= j < |slots| =>
      if j == i then s else if SameUnion(fs[i], fs[j]) then Choice(None) else slots[j])
  }

  lemma StoreKeepsShape(fs: seq<Field>, slots: seq<Slot>, i: nat, s: Slot)
    requires ShapedAll(fs, slots) && FitsAll(fs, slots, ToHold) && i < |fs|
    requires ShapedSlot(fs[i], s) && FitsSlot(fs[i], s, ToHold)
    requires Chosen(s) || !fs[i].rule.OneOf?
    ensures ShapedAll(fs, Store(fs, slots, i, s)) && FitsAll(fs, Store(fs, slots, i, s), ToHold)
  {
  }

  function Find(fs: seq<Field>, tag: nat): (r: Option<nat>)
    ensures r.Some? ==> r.value < |fs| && fs[r.value].tag == tag
    ensures r.None? ==> forall f :: f in fs ==> f.tag != tag
  {
    if fs == [] then None
    else if fs[0].tag == tag then Some(0)
    else
      match Find(fs[1..], tag)
      case None => None
      case Some(i) => Some(i + 1)
  }

  datatype Fields = Fields(slots: seq<Slot>, seen: set<nat>, rest: Bytes)

  /** Field after field, to the end of the bytes or to a zero tag; seen are the required fields
      met on the way. */
  function ParseFields(fs: seq<Field>, slots: seq<Slot>, seen: set<nat>, b: Bytes): (r: Option<Fields>)
    requires ValidFields(fs) && ShapedAll(fs, slots) && FitsAll(fs, slots, ToHold)
    ensures r.Some? ==> ShapedAll(fs, r.value.slots) && FitsAll(fs, r.value.slots, ToHold) && |r.value.rest| <= |b|
    decreases fs, |b|
  {
    if b == [] then Some(Fields(slots, seen, b))
    else
      match ReadTag(b)
      case End(rest) => Some(Fields(slots, seen, rest))
      case Unreadable(_) => None
      case Tag(tag, wire, rest) =>
        match Find(fs, tag)
        case None =>
          // The terminator of an empty descriptor has tag 0, and no type to be decoded as.
          if tag == 0 && fs == [] then None
          else
            (match Skip(wire, rest)
             case None => None
             case Some(after) => ParseFields(fs, slots, seen, after))
        case Some(i) =>
          assert fs[i] in fs;
          match ParseField(fs[i], slots[i], wire, rest)
          case None => None
          case Some(p) =>
            StoreKeepsShape(fs, slots, i, p.0);
            ParseFields(fs, Store(fs, slots, i, p.0), if fs[i].rule.Required? then seen + {i} else seen, p.1)
  }

  predicate AllSeen(fs: seq<Field>, seen: set<nat>) {
    forall i: nat :: i < |fs| && fs[i].rule.Required? ==> i in seen
  }

  // Decodes into the struct as it is.
  function ParseMessage(fs: seq<Field>, slots: seq<Slot>, b: Bytes): (r: Option<(seq<Slot>, Bytes)>)
    requires ValidFields(fs) && ShapedAll(fs, slots) && FitsAll(fs, slots, ToHold)
    ensures r.Some? ==> ShapedAll(fs, r.value.0) && FitsAll(fs, r.value.0, ToHold) && |r.value.1| <= |b|
    decreases fs, |b| + 1
  {
    match ParseFields(fs, slots, {}, b)
    case None => None
    case Some(r) => if AllSeen(fs, r.seen) then Some((r.slots, r.rest)) else None
  }

  // Decodes into a struct set to its defaults.
  function Parse(fs: seq<Field>, b: Bytes): Option<(seq<Slot>, Bytes)>
    requires ValidFields(fs)
  {
    DefaultsAreSound(fs);
    ParseMessage(fs, Defaults(fs), b)
  }
}
