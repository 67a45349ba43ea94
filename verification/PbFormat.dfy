/** The bytes of a message. */
module PbFormat {
  import opened Primitives
  import opened Coding
  import opened PbSchema
  import opened PbWire

  /** Unknown fields that some other writer may have put in: before each record of each message,
      given the descriptor of that message and the way to the record, and at the end of each. */
  type Noise = (seq<Field>, seq<nat>) -> seq<Unknown>

  ghost predicate Harmless(noise: Noise) {
    forall fs, path, u :: u in noise(fs, path) ==> u.Valid(fs)
  }

  function NoneBetween(fs: seq<Field>, path: seq<nat>): seq<Unknown> {
    []
  }

  function UnknownBytes(us: seq<Unknown>): Bytes {
    if us == [] then [] else us[0].Encoding() + UnknownBytes(us[1..])
  }

  // A value, without its tag.
  function ValueBytes(k: Kind, v: Value, noise: Noise, path: seq<nat>): Bytes
    requires ValidKind(k) && Shaped(k, v)
    decreases v, 0
  {
    match k
    case Submessage(fs) => Prefixed(MessageBytes(fs, v.slots, noise, path))
    case _ => ScalarBytes(k, v)
  }

  // A value of any kind but a submessage.
  function ScalarBytes(k: Kind, v: Value): Bytes
    requires ValidKind(k) && Shaped(k, v) && !k.Submessage?
  {
    match k
    case Fixed32Bits => Fixed32(v.i)
    case Fixed64Bits => Fixed64(v.i)
    case BytesArray(_) => Prefixed(v.b)
    case CString(_) => Prefixed(v.b)
    case FixedBytes(_) => Prefixed(v.b)
    case VarInt(_) => Varint(WireInt(k, v.i))
    case UVarInt(_) => Varint(WireInt(k, v.i))
    case SVarInt(_) => Varint(WireInt(k, v.i))
  }

  function MessageBytes(fs: seq<Field>, slots: seq<Slot>, noise: Noise, path: seq<nat>): Bytes
    requires ValidFields(fs) && ShapedAll(fs, slots)
    decreases slots, |fs| + 1
  {
    FieldsFrom(fs, slots, 0, noise, path)
  }

  function FieldsFrom(fs: seq<Field>, slots: seq<Slot>, i: nat, noise: Noise, path: seq<nat>): Bytes
    requires ValidFields(fs) && ShapedAll(fs, slots) && i <= |fs|
    decreases slots, |fs| - i
  {
    if i == |fs| then UnknownBytes(noise(fs, path))
    else
      assert fs[i] in fs;
      FieldBytes(fs, fs[i], slots[i], noise, path + [i]) + FieldsFrom(fs, slots, i + 1, noise, path)
  }

  function FieldBytes(fs: seq<Field>, f: Field, s: Slot, noise: Noise, path: seq<nat>): Bytes
    requires ValidField(f) && ShapedSlot(f, s)
    decreases s
  {
    match f.rule
    case Required => Record(fs, f, s.v, noise, path)
    case Implicit => if IsZero(f.kind, s.v) then [] else Record(fs, f, s.v, noise, path)
    case Optional => if s.has then Record(fs, f, s.v, noise, path) else []
    case Repeated(_) =>
      if s.items == [] then []
      else if f.Packable() then
        UnknownBytes(noise(fs, path)) + (TagBytes(WT_STRING, f.tag) + Prefixed(PackedBytes(f.kind, s.items)))
      else ItemsFrom(fs, f, s.items, 0, noise, path)
    case OneOf(_) => if s.chosen.Some? then Record(fs, f, s.chosen.value, noise, path) else []
  }

  // A tag and a value, after the unknown fields before it.
  function Record(fs: seq<Field>, f: Field, v: Value, noise: Noise, path: seq<nat>): Bytes
    requires ValidField(f) && Shaped(f.kind, v)
    decreases v, 1
  {
    UnknownBytes(noise(fs, path)) + (TagBytes(WireType(f.kind), f.tag) + ValueBytes(f.kind, v, noise, path))
  }

  function ItemsFrom(fs: seq<Field>, f: Field, items: seq<Value>, j: nat, noise: Noise, path: seq<nat>): Bytes
    requires ValidField(f) && (forall v :: v in items ==> Shaped(f.kind, v)) && j <= |items|
    decreases items, |items| - j
  {
    if j == |items| then []
    else Record(fs, f, items[j], noise, path + [j]) + ItemsFrom(fs, f, items, j + 1, noise, path)
  }

  function PackedBytes(k: Kind, items: seq<Value>): Bytes
    requires ValidKind(k) && !k.Submessage? && forall v :: v in items ==> Shaped(k, v)
  {
    if items == [] then [] else ScalarBytes(k, items[0]) + PackedBytes(k, items[1..])
  }

  // The message as this encoder writes it.
  function Encoding(fs: seq<Field>, slots: seq<Slot>): Bytes
    requires ValidFields(fs) && ShapedAll(fs, slots)
  {
    MessageBytes(fs, slots, NoneBetween, [])
  }
}
