/** Message descriptors and the structs they describe. */
module PbSchema {
  import opened Primitives
  import opened Coding

  // ----- Descriptors -----

  // What a field holds; sizes are those of its storage in the struct.
  datatype Kind =
    | VarInt(width: nat)
    | UVarInt(width: nat)
    | SVarInt(width: nat)
    | Fixed32Bits
    | Fixed64Bits
    | BytesArray(size: nat)
    | CString(size: nat)
    | FixedBytes(size: nat)
    | Submessage(fields: seq<Field>)

  // How often a field is there.  An Implicit field is optional but has no has_ field.
  datatype Rule = Required | Optional | Implicit | Repeated(max: nat) | OneOf(union: nat)

  datatype Field = Field(tag: nat, kind: Kind, rule: Rule, initial: Value) {
    predicate Packable() {
      kind.VarInt? || kind.UVarInt? || kind.SVarInt? || kind.Fixed32Bits? || kind.Fixed64Bits?
    }
  }

  // Room for the size field that precedes a bytes array.
  const BYTES_OFFSET: nat := 4

  const MAX_TAG: nat := 0x1fff_ffff

  ghost predicate ValidKind(k: Kind) {
    match k
    case VarInt(w) => w in {1, 2, 4, 8}
    case UVarInt(w) => w in {1, 2, 4, 8}
    case SVarInt(w) => w in {1, 2, 4, 8}
    case Submessage(fs) => ValidFields(fs)
    case _ => true
  }

  ghost predicate ValidFields(fs: seq<Field>) {
    && (forall f :: f in fs ==> ValidField(f))
    && (forall i, j :: 0 <= i < j < |fs| ==> fs[i].tag != fs[j].tag)
    && CountRequired(fs) < 64 && (CountRequired(fs) % 32 == 0 ==> CountRequired(fs) == 0)
  }

  ghost predicate ValidField(f: Field) {
    && 0 < f.tag <= MAX_TAG && ValidKind(f.kind)
    && (f.kind.Submessage? || (Shaped(f.kind, f.initial) && Fits(f.kind, f.initial, ToHold)))
    && (f.rule.Implicit? ==> !f.kind.Submessage? && f.initial == Zero(f.kind))
  }

  function CountRequired(fs: seq<Field>): nat {
    if fs == [] then 0 else (if fs[0].rule.Required? then 1 else 0) + CountRequired(fs[1..])
  }

  // ----- Structs -----

  // A string is what comes before its NUL, or its whole storage if there is none.
  datatype Value = Int(i: int) | Blob(b: Bytes) | Message(slots: seq<Slot>)

  // The storage of one field; that of a union, seen from one of its members.
  datatype Slot = One(v: Value) | Maybe(has: bool, v: Value) | Many(items: seq<Value>) | Choice(chosen: Option<Value>)

  function Half(width: nat): int {
    Pow256(width) / 2
  }

  // What the types of the struct alone say about a value.
  predicate Shaped(k: Kind, v: Value)
    decreases v
  {
    match k
    case VarInt(w) => v.Int? && -Half(w) <= v.i < Half(w)
    case SVarInt(w) => v.Int? && -Half(w) <= v.i < Half(w)
    case UVarInt(w) => v.Int? && 0 <= v.i < Pow256(w)
    case Fixed32Bits => v.Int? && 0 <= v.i < POW32
    case Fixed64Bits => v.Int? && 0 <= v.i < POW64
    case BytesArray(_) => v.Blob? && |v.b| < POW32
    case CString(size) => v.Blob? && |v.b| <= size && 0 !in v.b
    case FixedBytes(size) => v.Blob? && |v.b| == size
    case Submessage(fs) => v.Message? && ShapedAll(fs, v.slots)
  }

  predicate ShapedAll(fs: seq<Field>, slots: seq<Slot>)
    decreases slots
  {
    && |slots| == |fs| && Exclusive(fs, slots)
    && forall i :: 0 <= i < |fs| ==> ShapedSlot(fs[i], slots[i])
  }

  // A union holds one of its members at most.
  predicate Exclusive(fs: seq<Field>, slots: seq<Slot>)
    requires |slots| == |fs|
  {
    forall i, j :: 0 <= i < j < |fs| && SameUnion(fs[i], fs[j]) ==> !Chosen(slots[i]) || !Chosen(slots[j])
  }

  predicate SameUnion(f: Field, g: Field) {
    f.rule.OneOf? && f.rule == g.rule
  }

  predicate Chosen(s: Slot) {
    s.Choice? && s.chosen.Some?
  }

  predicate ShapedSlot(f: Field, s: Slot)
    decreases s
  {
    match f.rule
    case Required => s.One? && Shaped(f.kind, s.v)
    case Implicit => s.One? && Shaped(f.kind, s.v)
    case Optional => s.Maybe? && Shaped(f.kind, s.v)
    case Repeated(_) => s.Many? && forall v :: v in s.items ==> Shaped(f.kind, v)
    case OneOf(_) => s.Choice? && (s.chosen.Some? ==> Shaped(f.kind, s.chosen.value))
  }

  // What a value must fit for: to be encoded, to be encoded and come back, or to be in a struct
  // that is decoded into.
  datatype Purpose = ToEncode | ToComeBack | ToHold

  // Does the value stay inside the storage its field has?
  predicate Fits(k: Kind, v: Value, to: Purpose)
    requires Shaped(k, v)
    decreases v
  {
    match k
    case BytesArray(size) => |v.b| + BYTES_OFFSET <= size
    case CString(size) => to.ToEncode? || |v.b| < size
    case Submessage(fs) => FitsAll(fs, v.slots, to)
    case _ => true
  }

  predicate FitsAll(fs: seq<Field>, slots: seq<Slot>, to: Purpose)
    requires ShapedAll(fs, slots)
    decreases slots
  {
    forall i :: 0 <= i < |fs| ==> FitsSlot(fs[i], slots[i], to)
  }

  predicate FitsSlot(f: Field, s: Slot, to: Purpose)
    requires ShapedSlot(f, s)
    decreases s
  {
    match f.rule
    case Required => Fits(f.kind, s.v, to)
    case Implicit => IsZero(f.kind, s.v) || Fits(f.kind, s.v, to)
    case Optional => s.has || to.ToHold? ==> Fits(f.kind, s.v, to)
    case Repeated(max) => |s.items| <= max && forall v :: v in s.items ==> Fits(f.kind, v, to)
    case OneOf(_) => s.chosen.Some? ==> Fits(f.kind, s.chosen.value, to)
  }

  // A value that an implicit field leaves out.
  predicate IsZero(k: Kind, v: Value)
    requires Shaped(k, v)
  {
    match k
    case BytesArray(_) => v.b == []
    case CString(_) => v.b == []
    case FixedBytes(size) => size == 0
    case Submessage(_) => false
    case _ => v.i == 0
  }

  // ----- Defaults -----

  function Zero(k: Kind): Value {
    match k
    case BytesArray(_) => Blob([])
    case CString(_) => Blob([])
    case FixedBytes(size) => Blob(seq(size, _ => 0))
    case Submessage(_) => Message([])
    case _ => Int(0)
  }

  function DefaultValue(f: Field): Value
    decreases f, 0
  {
    if f.kind.Submessage? then Message(Defaults(f.kind.fields)) else f.initial
  }

  function DefaultSlot(f: Field): Slot
    decreases f, 1
  {
    match f.rule
    case Required => One(DefaultValue(f))
    case Implicit => One(DefaultValue(f))
    case Optional => Maybe(false, DefaultValue(f))
    case Repeated(_) => Many([])
    case OneOf(_) => Choice(None)
  }

  function Defaults(fs: seq<Field>): (slots: seq<Slot>)
    ensures |slots| == |fs|
    decreases fs
  {
    seq(|fs|, i requires 0 <= i < |fs| => DefaultSlot(fs[i]))
  }

  lemma {:induction false} DefaultIsSound(f: Field)
    requires ValidField(f)
    ensures ShapedSlot(f, DefaultSlot(f)) && FitsSlot(f, DefaultSlot(f), ToHold)
    ensures Shaped(f.kind, DefaultValue(f)) && Fits(f.kind, DefaultValue(f), ToHold)
    decreases f
  {
    if f.kind.Submessage? {
      DefaultsAreSound(f.kind.fields);
    }
  }

  lemma {:induction false} DefaultsAreSound(fs: seq<Field>)
    requires ValidFields(fs)
    ensures ShapedAll(fs, Defaults(fs)) && FitsAll(fs, Defaults(fs), ToHold)
    decreases fs
  {
    forall i | 0 <= i < |fs| ensures ShapedSlot(fs[i], Defaults(fs)[i]) && FitsSlot(fs[i], Defaults(fs)[i], ToHold) {
      assert fs[i] in fs;
      DefaultIsSound(fs[i]);
    }
  }

  // ----- Messages up to absent fields -----

  // The value with what is absent from it set to its default.
  function Present(k: Kind, v: Value): Value
    requires Shaped(k, v)
    decreases v, 1
  {
    if k.Submessage? then Message(PresentAll(k.fields, v.slots)) else v
  }

  function PresentAll(fs: seq<Field>, slots: seq<Slot>): (r: seq<Slot>)
    requires ShapedAll(fs, slots)
    ensures |r| == |fs|
    decreases slots
  {
    seq(|fs|, i requires 0 <= i < |fs| => PresentSlot(fs[i], slots[i]))
  }

  function PresentSlot(f: Field, s: Slot): Slot
    requires ShapedSlot(f, s)
    decreases s
  {
    match f.rule
    case Required => One(Present(f.kind, s.v))
    case Implicit => s
    case Optional => if s.has then Maybe(true, Present(f.kind, s.v)) else DefaultSlot(f)
    case Repeated(_) => Many(PresentItems(f.kind, s.items))
    case OneOf(_) => if s.chosen.Some? then Choice(Some(Present(f.kind, s.chosen.value))) else s
  }

  function PresentItems(k: Kind, items: seq<Value>): (r: seq<Value>)
    requires forall v :: v in items ==> Shaped(k, v)
    ensures |r| == |items|
    decreases items
  {
    seq(|items|, i requires 0 <= i < |items| => Present(k, items[i]))
  }
}
