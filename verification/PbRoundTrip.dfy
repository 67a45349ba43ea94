/** Decoding gives back the message that was encoded. */
module PbRoundTrip {
  import opened Primitives
  import opened Coding
  import opened PbSchema
  import opened PbWire
  import opened PbFormat
  import opened PbParsing

  // ----- Values -----

  lemma DelimitedComesBack(b: Bytes, rest: Bytes)
    requires |Prefixed(b)| < POW32
    ensures Prefixed(b) + rest == Varint(|b|) + (b + rest)
    ensures ReadVarint32(Prefixed(b) + rest) == Good(|b|, b + rest)
    ensures Substream(Prefixed(b) + rest) == Some((b, rest))
  {
    assert Prefixed(b) + rest == Varint(|b|) + (b + rest);
    ReadsBack32(|b|, b + rest);
    assert (b + rest)[..|b|] == b && (b + rest)[|b|..] == rest;
  }

  lemma {:induction false} NoNul(b: Bytes)
    requires 0 !in b
    ensures UntilNul(b) == b
  {
    if b != [] {
      NoNul(b[1..]);
    }
  }

  lemma FixedComesBack(v: nat, width: nat, rest: Bytes)
    requires (width == 4 || width == 8) && v < Pow256(width)
    ensures ParseFixed(Fixed(v, width) + rest, width) == Some((Int(v), rest))
  {
    FixedRoundTrip(v, width);
    assert (Fixed(v, width) + rest)[..width] == Fixed(v, width);
  }

  lemma {:induction false} BlobComesBack(k: Kind, v: Value, rest: Bytes)
    requires k.BytesArray? || k.CString? || k.FixedBytes?
    requires ValidKind(k) && Shaped(k, v) && Fits(k, v, ToComeBack) && |Prefixed(v.b)| < POW32
    ensures ParseBlob(k, Prefixed(v.b) + rest) == Some((v, rest))
  {
    DelimitedComesBack(v.b, rest);
    assert (v.b + rest)[..|v.b|] == v.b && (v.b + rest)[|v.b|..] == rest;
    if k.CString? {
      NoNul(v.b);
    }
    if k.FixedBytes? && v.b == [] {
      assert Zero(k) == Blob([]) == v;
    }
  }

  lemma {:induction false} ScalarComesBack(k: Kind, v: Value, rest: Bytes)
    requires !k.Submessage? && ValidKind(k) && Shaped(k, v) && Fits(k, v, ToComeBack) && |ScalarBytes(k, v)| < POW32
    ensures ParseScalar(k, ScalarBytes(k, v) + rest) == Some((v, rest))
  {
    Pow256Widths();
    match k
    case Fixed32Bits => FixedComesBack(v.i, 4, rest);
    case Fixed64Bits => FixedComesBack(v.i, 8, rest);
    case BytesArray(_) => BlobComesBack(k, v, rest);
    case CString(_) => BlobComesBack(k, v, rest);
    case FixedBytes(_) => BlobComesBack(k, v, rest);
    case VarInt(_) => IntComesBack(k, v.i, rest);
    case UVarInt(_) => IntComesBack(k, v.i, rest);
    case SVarInt(_) => IntComesBack(k, v.i, rest);
  }

  lemma IntComesBack(k: Kind, i: int, rest: Bytes)
    requires k.VarInt? || k.UVarInt? || k.SVarInt?
    requires ValidKind(k) && Shaped(k, Int(i))
    ensures ParseInt(k, Varint(WireInt(k, i)) + rest) == Some((Int(i), rest))
  {
    IntRoundTrip(k, i);
    ReadsBack64(WireInt(k, i), rest);
  }

  lemma ParsesOneMore(k: Kind, before: seq<Value>, v: Value, max: nat, b: Bytes, rest: Bytes)
    requires ValidKind(k) && !k.Submessage? && |before| < max && b != []
    requires forall v :: v in before ==> Shaped(k, v) && Fits(k, v, ToHold)
    requires Shaped(k, v) && Fits(k, v, ToHold) && ParseScalar(k, b) == Some((v, rest))
    ensures ParseItems(k, before, max, b) == ParseItems(k, before + [v], max, rest)
  {
  }

  lemma FirstOfPacked(k: Kind, before: seq<Value>, items: seq<Value>, max: nat)
    requires ValidKind(k) && !k.Submessage? && |before| + |items| <= max && items != []
    requires forall v :: v in before ==> Shaped(k, v) && Fits(k, v, ToHold)
    requires forall v :: v in items ==> Shaped(k, v) && Fits(k, v, ToComeBack)
    requires |PackedBytes(k, items)| < POW32
    ensures |PackedBytes(k, items[1..])| < POW32
    ensures forall v :: v in before + [items[0]] ==> Shaped(k, v) && Fits(k, v, ToHold)
    ensures ParseItems(k, before, max, PackedBytes(k, items))
         == ParseItems(k, before + [items[0]], max, PackedBytes(k, items[1..]))
  {
    assert items[0] in items && forall v :: v in items[1..] ==> v in items;
    ScalarComesBack(k, items[0], PackedBytes(k, items[1..]));
    ParsesOneMore(k, before, items[0], max, PackedBytes(k, items), PackedBytes(k, items[1..]));
  }

  lemma NoneOfPacked(k: Kind, before: seq<Value>, items: seq<Value>, max: nat)
    requires ValidKind(k) && !k.Submessage? && |before| <= max && items == []
    requires forall v :: v in before ==> Shaped(k, v) && Fits(k, v, ToHold)
    ensures ParseItems(k, before, max, PackedBytes(k, items)) == Some(before + items)
  {
    assert before + items == before;
  }

  lemma MoveFirst(before: seq<Value>, items: seq<Value>)
    requires items != []
    ensures (before + [items[0]]) + items[1..] == before + items
  {
  }

  lemma {:induction false} PackedComesBack(k: Kind, before: seq<Value>, items: seq<Value>, max: nat)
    requires ValidKind(k) && !k.Submessage? && |before| + |items| <= max
    requires forall v :: v in before ==> Shaped(k, v) && Fits(k, v, ToHold)
    requires forall v :: v in items ==> Shaped(k, v) && Fits(k, v, ToComeBack)
    requires |PackedBytes(k, items)| < POW32
    ensures ParseItems(k, before, max, PackedBytes(k, items)) == Some(before + items)
    decreases |items|
  {
    if items != [] {
      FirstOfPacked(k, before, items, max);
      PackedComesBack(k, before + [items[0]], items[1..], max);
      MoveFirst(before, items);
    } else {
      NoneOfPacked(k, before, items, max);
    }
  }

  // ----- One record at a time -----

  lemma {:induction false} FindsField(fs: seq<Field>, i: nat)
    requires i < |fs| && forall j, k :: 0 <= j < k < |fs| ==> fs[j].tag != fs[k].tag
    ensures Find(fs, fs[i].tag) == Some(i)
  {
    if i > 0 {
      assert fs[1..][i - 1] == fs[i];
      FindsField(fs[1..], i - 1);
    }
  }

  // A struct that can be decoded into.
  ghost predicate Ready(fs: seq<Field>, slots: seq<Slot>) {
    ValidFields(fs) && ShapedAll(fs, slots) && FitsAll(fs, slots, ToHold)
  }

  function Mark(fs: seq<Field>, seen: set<nat>, i: nat): set<nat>
    requires i < |fs|
  {
    if fs[i].rule.Required? then seen + {i} else seen
  }

  // A record of a known field is decoded into its slot.
  lemma {:induction false} DecodesKnown(fs: seq<Field>, slots: seq<Slot>, seen: set<nat>, i: nat, wire: nat,
                                        payload: Bytes, s: Slot, more: Bytes)
    requires Ready(fs, slots) && i < |fs| && wire < 8 && ValidField(fs[i])
    requires ParseField(fs[i], slots[i], wire, payload) == Some((s, more))
    ensures Ready(fs, Store(fs, slots, i, s))
    ensures ParseFields(fs, slots, seen, TagBytes(wire, fs[i].tag) + payload)
         == ParseFields(fs, Store(fs, slots, i, s), Mark(fs, seen, i), more)
  {
    TagRoundTrip(wire, fs[i].tag, payload);
    FindsField(fs, i);
    StoreKeepsShape(fs, slots, i, s);
  }

  // Unknown fields are passed over.
  lemma {:induction false} PassesUnknown(fs: seq<Field>, slots: seq<Slot>, seen: set<nat>, us: seq<Unknown>, more: Bytes)
    requires Ready(fs, slots) && forall u :: u in us ==> u.Valid(fs)
    ensures ParseFields(fs, slots, seen, UnknownBytes(us) + more) == ParseFields(fs, slots, seen, more)
    decreases |us|
  {
    if us == [] {
      assert UnknownBytes(us) + more == more;
    } else {
      assert us[0] in us && forall x :: x in us[1..] ==> x in us;
      Assoc(us[0].Encoding(), UnknownBytes(us[1..]), more);
      PassesOne(fs, slots, seen, us[0], UnknownBytes(us[1..]) + more);
      PassesUnknown(fs, slots, seen, us[1..], more);
    }
  }

  lemma {:induction false} PassesOne(fs: seq<Field>, slots: seq<Slot>, seen: set<nat>, u: Unknown, more: Bytes)
    requires Ready(fs, slots) && u.Valid(fs)
    ensures ParseFields(fs, slots, seen, u.Encoding() + more) == ParseFields(fs, slots, seen, more)
  {
    TagRoundTrip(u.Wire(), u.tag, u.PayloadBytes() + more);
    SkipsUnknown(u, fs, more);
    Assoc(TagBytes(u.Wire(), u.tag), u.PayloadBytes(), more);
    NotFound(fs, u.tag);
  }

  lemma {:induction false} NotFound(fs: seq<Field>, tag: nat)
    requires forall f :: f in fs ==> f.tag != tag
    ensures Find(fs, tag) == None
  {
    if fs != [] {
      assert fs[0] in fs && forall f :: f in fs[1..] ==> f in fs;
      NotFound(fs[1..], tag);
    }
  }

  // Unknown fields, a tag and a value: the value is decoded into its slot.
  lemma {:induction false} DecodesRecord(fs: seq<Field>, slots: seq<Slot>, seen: set<nat>, i: nat, us: seq<Unknown>,
                                         wire: nat, value: Bytes, s: Slot, more: Bytes)
    requires Ready(fs, slots) && i < |fs| && wire < 8 && ValidField(fs[i])
    requires forall u :: u in us ==> u.Valid(fs)
    requires ParseField(fs[i], slots[i], wire, value + more) == Some((s, more))
    ensures Ready(fs, Store(fs, slots, i, s))
    ensures ParseFields(fs, slots, seen, UnknownBytes(us) + (TagBytes(wire, fs[i].tag) + value) + more)
         == ParseFields(fs, Store(fs, slots, i, s), Mark(fs, seen, i), more)
  {
    var tag := TagBytes(wire, fs[i].tag);
    Extend(UnknownBytes(us), tag, value, more);
    PassesUnknown(fs, slots, seen, us, tag + (value + more));
    DecodesKnown(fs, slots, seen, i, wire, value + more, s, more);
  }

  // ----- The struct half way -----

  // The first i fields of the message are there.
  function Mixed(fs: seq<Field>, slots: seq<Slot>, i: nat): seq<Slot>
    requires ShapedAll(fs, slots) && i <= |fs|
  {
    PresentAll(fs, slots)[..i] + Defaults(fs)[i..]
  }

  function SeenBefore(fs: seq<Field>, i: nat): set<nat> {
    set j: nat | j < i && j < |fs| && fs[j].rule.Required?
  }

  // The slot of a field after one more value.
  function Filled(f: Field, s: Slot, v: Value): Slot
    requires ShapedSlot(f, s)
  {
    match f.rule
    case Required => One(v)
    case Implicit => One(v)
    case Optional => Maybe(true, v)
    case OneOf(_) => Choice(Some(v))
    case Repeated(_) => Many(s.items + [v])
  }

  // What is in the field when a value is decoded into it.
  function Was(f: Field, s: Slot): Value
    requires ShapedSlot(f, s)
  {
    if f.rule.Repeated? || f.rule.OneOf? then DefaultValue(f) else s.v
  }

  // A slot that a value can be decoded into as if it were new.
  predicate Vacant(f: Field, s: Slot)
    requires ShapedSlot(f, s)
  {
    match f.rule
    case Required => s.v == DefaultValue(f)
    case Implicit => true
    case Optional => s.v == DefaultValue(f)
    case OneOf(_) => true
    case Repeated(max) => |s.items| < max && !f.Packable()
  }

  // ----- The round trip -----

  // What is asked of a value that is to come back.
  ghost predicate Returns(k: Kind, v: Value, noise: Noise, path: seq<nat>) {
    && ValidKind(k) && Shaped(k, v) && Fits(k, v, ToComeBack) && Harmless(noise)
    && |ValueBytes(k, v, noise, path)| < POW32
  }

  lemma {:induction false} ValueComesBack(k: Kind, was: Value, v: Value, noise: Noise, path: seq<nat>, more: Bytes)
    requires Returns(k, v, noise, path)
    requires k.Submessage? ==> was == Message(Defaults(k.fields)) && Shaped(k, was) && Fits(k, was, ToHold)
    ensures ParseValue(k, was, ValueBytes(k, v, noise, path) + more) == Some((Present(k, v), more))
    decreases v, 0
  {
    if k.Submessage? {
      var body := MessageBytes(k.fields, v.slots, noise, path);
      DelimitedComesBack(body, more);
      MessageComesBack(k.fields, v.slots, noise, path);
    } else {
      ScalarComesBack(k, v, more);
    }
  }

  lemma {:induction false} RecordComesBack(fs: seq<Field>, slots: seq<Slot>, seen: set<nat>, i: nat, v: Value,
                                           noise: Noise, path: seq<nat>, more: Bytes)
    requires Ready(fs, slots) && i < |fs| && ValidField(fs[i]) && Returns(fs[i].kind, v, noise, path)
    requires Vacant(fs[i], slots[i])
    ensures
      var next := Store(fs, slots, i, Filled(fs[i], slots[i], Present(fs[i].kind, v)));
      && Ready(fs, next)
      && ParseFields(fs, slots, seen, Record(fs, fs[i], v, noise, path) + more)
         == ParseFields(fs, next, Mark(fs, seen, i), more)
    decreases v, 2
  {
    var f := fs[i];
    FieldComesFull(f, slots[i], v, noise, path, more);
    DecodesRecord(fs, slots, seen, i, noise(fs, path), WireType(f.kind), ValueBytes(f.kind, v, noise, path),
                  Filled(f, slots[i], Present(f.kind, v)), more);
  }

  lemma {:induction false} FieldComesFull(f: Field, s: Slot, v: Value, noise: Noise, path: seq<nat>, more: Bytes)
    requires ValidField(f) && ShapedSlot(f, s) && FitsSlot(f, s, ToHold) && Vacant(f, s) && Returns(f.kind, v, noise, path)
    ensures ParseField(f, s, WireType(f.kind), ValueBytes(f.kind, v, noise, path) + more)
         == Some((Filled(f, s, Present(f.kind, v)), more))
    decreases v, 1
  {
    DefaultIsSound(f);
    ValueComesBack(f.kind, Was(f, s), v, noise, path, more);
  }

  lemma {:induction false} MessageComesBack(fs: seq<Field>, slots: seq<Slot>, noise: Noise, path: seq<nat>)
    requires ValidFields(fs) && ShapedAll(fs, slots) && FitsAll(fs, slots, ToComeBack) && Harmless(noise)
    requires |MessageBytes(fs, slots, noise, path)| < POW32
    ensures Ready(fs, Defaults(fs))
    ensures ParseMessage(fs, Defaults(fs), MessageBytes(fs, slots, noise, path)) == Some((PresentAll(fs, slots), []))
    decreases slots, |fs| + 1
  {
    DefaultsAreSound(fs);
    assert Mixed(fs, slots, 0) == Defaults(fs) && SeenBefore(fs, 0) == {};
    FieldsComeBack(fs, slots, 0, noise, path);
  }

  lemma {:induction false} FieldsComeBack(fs: seq<Field>, slots: seq<Slot>, i: nat, noise: Noise, path: seq<nat>)
    requires ValidFields(fs) && ShapedAll(fs, slots) && FitsAll(fs, slots, ToComeBack) && Harmless(noise)
    requires i <= |fs| && Ready(fs, Mixed(fs, slots, i)) && |FieldsFrom(fs, slots, i, noise, path)| < POW32
    ensures ParseFields(fs, Mixed(fs, slots, i), SeenBefore(fs, i), FieldsFrom(fs, slots, i, noise, path))
         == Some(Fields(PresentAll(fs, slots), SeenBefore(fs, |fs|), []))
    decreases slots, |fs| - i
  {
    if i == |fs| {
      var us := noise(fs, path);
      assert UnknownBytes(us) + [] == UnknownBytes(us) && Mixed(fs, slots, i) == PresentAll(fs, slots);
      PassesUnknown(fs, Mixed(fs, slots, i), SeenBefore(fs, i), us, []);
    } else {
      assert fs[i] in fs;
      FieldComesBack(fs, slots, i, noise, path + [i], FieldsFrom(fs, slots, i + 1, noise, path));
      FieldsComeBack(fs, slots, i + 1, noise, path);
    }
  }

  lemma {:induction false} FieldComesBack(fs: seq<Field>, slots: seq<Slot>, i: nat, noise: Noise, path: seq<nat>, more: Bytes)
    requires ValidFields(fs) && ShapedAll(fs, slots) && FitsAll(fs, slots, ToComeBack) && Harmless(noise)
    requires i < |fs| && ValidField(fs[i]) && Ready(fs, Mixed(fs, slots, i))
    requires |FieldBytes(fs, fs[i], slots[i], noise, path)| < POW32
    ensures Ready(fs, Mixed(fs, slots, i + 1))
    ensures ParseFields(fs, Mixed(fs, slots, i), SeenBefore(fs, i), FieldBytes(fs, fs[i], slots[i], noise, path) + more)
         == ParseFields(fs, Mixed(fs, slots, i + 1), SeenBefore(fs, i + 1), more)
    decreases slots[i], 0
  {
    var f, s := fs[i], slots[i];
    var start, seen := Mixed(fs, slots, i), SeenBefore(fs, i);
    StoresInMixed(fs, slots, i);
    assert [] + more == more;
    match f.rule
    case Required => RecordComesBack(fs, start, seen, i, s.v, noise, path, more);
    case Implicit =>
      if !IsZero(f.kind, s.v) {
        RecordComesBack(fs, start, seen, i, s.v, noise, path, more);
      } else {
        assert s.v == Zero(f.kind);
      }
    case Optional =>
      if s.has {
        RecordComesBack(fs, start, seen, i, s.v, noise, path, more);
      }
    case OneOf(_) =>
      if s.chosen.Some? {
        RecordComesBack(fs, start, seen, i, s.chosen.value, noise, path, more);
      }
    case Repeated(_) =>
      if s.items == [] {
        assert PresentItems(f.kind, s.items) == [];
      } else if f.Packable() {
        ArrayComesBack(fs, start, seen, i, s.items, noise, path, more);
      } else {
        ItemsComeBack(fs, start, seen, i, s.items, 0, noise, path, more);
      }
  }

  // An array that is packed comes back as one record.
  lemma {:induction false} ArrayComesBack(fs: seq<Field>, slots: seq<Slot>, seen: set<nat>, i: nat, items: seq<Value>,
                                          noise: Noise, path: seq<nat>, more: Bytes)
    requires Ready(fs, slots) && i < |fs| && ValidField(fs[i]) && Harmless(noise)
    requires fs[i].rule.Repeated? && fs[i].Packable() && slots[i] == Many([]) && items != []
    requires ShapedSlot(fs[i], Many(items)) && FitsSlot(fs[i], Many(items), ToComeBack)
    requires |FieldBytes(fs, fs[i], Many(items), noise, path)| < POW32
    ensures
      var next := Store(fs, slots, i, Many(PresentItems(fs[i].kind, items)));
      && Ready(fs, next)
      && ParseFields(fs, slots, seen, FieldBytes(fs, fs[i], Many(items), noise, path) + more) == ParseFields(fs, next, seen, more)
  {
    ArrayIsRead(fs[i], items, more);
    assert PresentItems(fs[i].kind, items) == items;
    DecodesRecord(fs, slots, seen, i, noise(fs, path), WT_STRING, Prefixed(PackedBytes(fs[i].kind, items)), Many(items), more);
  }

  lemma {:induction false} ArrayIsRead(f: Field, items: seq<Value>, more: Bytes)
    requires ValidField(f) && f.rule.Repeated? && f.Packable()
    requires ShapedSlot(f, Many(items)) && FitsSlot(f, Many(items), ToComeBack)
    requires |Prefixed(PackedBytes(f.kind, items))| < POW32
    ensures ParseField(f, Many([]), WT_STRING, Prefixed(PackedBytes(f.kind, items)) + more) == Some((Many(items), more))
  {
    DelimitedComesBack(PackedBytes(f.kind, items), more);
    PackedComesBack(f.kind, [], items, f.rule.max);
    assert [] + items == items;
  }

  // Items that are records of their own come back one after the other.
  lemma {:induction false} ItemsComeBack(fs: seq<Field>, slots: seq<Slot>, seen: set<nat>, i: nat, items: seq<Value>, j: nat,
                                         noise: Noise, path: seq<nat>, more: Bytes)
    requires Ready(fs, slots) && i < |fs| && ValidField(fs[i]) && Harmless(noise)
    requires fs[i].rule.Repeated? && !fs[i].Packable()
    requires ShapedSlot(fs[i], Many(items)) && FitsSlot(fs[i], Many(items), ToComeBack)
    requires j <= |items| && slots[i] == Many(PresentItems(fs[i].kind, items)[..j])
    requires |ItemsFrom(fs, fs[i], items, j, noise, path)| < POW32
    ensures
      var next := Store(fs, slots, i, Many(PresentItems(fs[i].kind, items)));
      && Ready(fs, next)
      && ParseFields(fs, slots, seen, ItemsFrom(fs, fs[i], items, j, noise, path) + more) == ParseFields(fs, next, seen, more)
    decreases items, |items| - j
  {
    var all := PresentItems(fs[i].kind, items);
    if j == |items| {
      assert all[..j] == all && [] + more == more;
      assert Store(fs, slots, i, slots[i]) == slots;
    } else {
      ItemComesBack(fs, slots, seen, i, items, j, noise, path, ItemsFrom(fs, fs[i], items, j + 1, noise, path) + more);
      Assoc(Record(fs, fs[i], items[j], noise, path + [j]), ItemsFrom(fs, fs[i], items, j + 1, noise, path), more);
      ItemsComeBack(fs, Store(fs, slots, i, Many(all[..j + 1])), seen, i, items, j + 1, noise, path, more);
      StoresTwice(fs, slots, i, Many(all[..j + 1]), Many(all));
    }
  }

  lemma {:induction false} ItemComesBack(fs: seq<Field>, slots: seq<Slot>, seen: set<nat>, i: nat, items: seq<Value>, j: nat,
                                         noise: Noise, path: seq<nat>, more: Bytes)
    requires Ready(fs, slots) && i < |fs| && ValidField(fs[i]) && Harmless(noise)
    requires fs[i].rule.Repeated? && !fs[i].Packable()
    requires ShapedSlot(fs[i], Many(items)) && FitsSlot(fs[i], Many(items), ToComeBack)
    requires j < |items| && slots[i] == Many(PresentItems(fs[i].kind, items)[..j])
    requires |Record(fs, fs[i], items[j], noise, path + [j])| < POW32
    ensures
      var next := Store(fs, slots, i, Many(PresentItems(fs[i].kind, items)[..j + 1]));
      && Ready(fs, next)
      && ParseFields(fs, slots, seen, Record(fs, fs[i], items[j], noise, path + [j]) + more) == ParseFields(fs, next, seen, more)
    decreases items, 0
  {
    var all := PresentItems(fs[i].kind, items);
    assert items[j] in items && all[..j] + [all[j]] == all[..j + 1];
    RecordComesBack(fs, slots, seen, i, items[j], noise, path + [j], more);
  }

  lemma StoresTwice(fs: seq<Field>, slots: seq<Slot>, i: nat, s: Slot, t: Slot)
    requires |slots| == |fs| && i < |fs|
    ensures Store(fs, Store(fs, slots, i, s), i, t) == Store(fs, slots, i, t)
  {
  }

  // Storing what field i holds takes the struct one field further.
  lemma {:induction false} StoresInMixed(fs: seq<Field>, slots: seq<Slot>, i: nat)
    requires ValidFields(fs) && ShapedAll(fs, slots) && i < |fs|
    ensures Mixed(fs, slots, i)[i] == DefaultSlot(fs[i])
    ensures Chosen(slots[i]) || !fs[i].rule.OneOf? ==>
      Store(fs, Mixed(fs, slots, i), i, PresentSlot(fs[i], slots[i])) == Mixed(fs, slots, i + 1)
    ensures PresentSlot(fs[i], slots[i]) == DefaultSlot(fs[i]) ==> Mixed(fs, slots, i + 1) == Mixed(fs, slots, i)
    ensures Mark(fs, SeenBefore(fs, i), i) == SeenBefore(fs, i + 1)
  {
    var start, s := Mixed(fs, slots, i), PresentSlot(fs[i], slots[i]);
    if Chosen(slots[i]) || !fs[i].rule.OneOf? {
      forall j | 0 <= j < |fs| ensures Store(fs, start, i, s)[j] == Mixed(fs, slots, i + 1)[j] {
        StoresInMixedAt(fs, slots, i, j);
      }
    }
  }

  lemma StoresInMixedAt(fs: seq<Field>, slots: seq<Slot>, i: nat, j: nat)
    requires ValidFields(fs) && ShapedAll(fs, slots) && i < |fs| && j < |fs|
    requires Chosen(slots[i]) || !fs[i].rule.OneOf?
    ensures Store(fs, Mixed(fs, slots, i), i, PresentSlot(fs[i], slots[i]))[j] == Mixed(fs, slots, i + 1)[j]
  {
    if j != i && SameUnion(fs[i], fs[j]) {
      OthersAreUnset(fs, slots, i, j);
    }
  }

  lemma OthersAreUnset(fs: seq<Field>, slots: seq<Slot>, i: nat, j: nat)
    requires ShapedAll(fs, slots) && i < |fs| && j < |fs| && i != j && SameUnion(fs[i], fs[j]) && Chosen(slots[i])
    ensures PresentSlot(fs[j], slots[j]) == DefaultSlot(fs[j]) == Choice(None)
  {
    if j < i {
      assert SameUnion(fs[j], fs[i]);
    }
  }

  // ----- What the round trip needs -----

  lemma {:induction false} HeldMeansReturns(k: Kind, v: Value)
    requires ValidKind(k) && Shaped(k, v) && Shaped(k, Present(k, v)) && Fits(k, Present(k, v), ToHold)
    ensures Fits(k, v, ToComeBack)
    decreases v, 0
  {
    if k.Submessage? {
      AllHeldMeansReturns(k.fields, v.slots);
    }
  }

  lemma {:induction false} AllHeldMeansReturns(fs: seq<Field>, slots: seq<Slot>)
    requires ValidFields(fs) && ShapedAll(fs, slots)
    requires ShapedAll(fs, PresentAll(fs, slots)) && FitsAll(fs, PresentAll(fs, slots), ToHold)
    ensures FitsAll(fs, slots, ToComeBack)
    decreases slots
  {
    forall i | 0 <= i < |fs| ensures FitsSlot(fs[i], slots[i], ToComeBack) {
      assert fs[i] in fs && PresentAll(fs, slots)[i] == PresentSlot(fs[i], slots[i]);
      SlotHeldMeansReturns(fs[i], slots[i]);
    }
  }

  lemma {:induction false} SlotHeldMeansReturns(f: Field, s: Slot)
    requires ValidField(f) && ShapedSlot(f, s) && ShapedSlot(f, PresentSlot(f, s)) && FitsSlot(f, PresentSlot(f, s), ToHold)
    ensures FitsSlot(f, s, ToComeBack)
    decreases s
  {
    match f.rule
    case Required => HeldMeansReturns(f.kind, s.v);
    case Implicit =>
    case Optional =>
      if s.has {
        HeldMeansReturns(f.kind, s.v);
      }
    case OneOf(_) =>
      if s.chosen.Some? {
        HeldMeansReturns(f.kind, s.chosen.value);
      }
    case Repeated(_) =>
      forall v | v in s.items ensures Fits(f.kind, v, ToComeBack) {
        var j :| 0 <= j < |s.items| && s.items[j] == v;
        assert PresentItems(f.kind, s.items)[j] in PresentItems(f.kind, s.items);
        HeldMeansReturns(f.kind, v);
      }
  }

  /** A message comes back from its encoding, all of which is consumed, exactly when its arrays,
      byte strings and strings with their NULs fit in the struct; up to what is absent from it. */
  lemma {:induction false} ComesBackExactlyWhenItFits(fs: seq<Field>, slots: seq<Slot>)
    requires ValidFields(fs) && ShapedAll(fs, slots) && |Encoding(fs, slots)| < POW32
    ensures Parse(fs, Encoding(fs, slots)) == Some((PresentAll(fs, slots), [])) <==> FitsAll(fs, slots, ToComeBack)
  {
    if FitsAll(fs, slots, ToComeBack) {
      MessageComesBack(fs, slots, NoneBetween, []);
    }
    if Parse(fs, Encoding(fs, slots)) == Some((PresentAll(fs, slots), [])) {
      DefaultsAreSound(fs);
      AllHeldMeansReturns(fs, slots);
    }
  }

  /** Unknown fields, whatever they are and wherever some other writer puts them, are no hindrance. */
  lemma {:induction false} ComesBackAmongUnknownFields(fs: seq<Field>, slots: seq<Slot>, noise: Noise)
    requires ValidFields(fs) && ShapedAll(fs, slots) && FitsAll(fs, slots, ToComeBack) && Harmless(noise)
    requires |MessageBytes(fs, slots, noise, [])| < POW32
    ensures Parse(fs, MessageBytes(fs, slots, noise, [])) == Some((PresentAll(fs, slots), []))
  {
    MessageComesBack(fs, slots, noise, []);
  }
}
