/** Encoding a message to a stream, in two passes: its size, then its bytes. */
module PbEncoders {
  import opened Primitives
  import opened Coding
  import opened PbSchema
  import opened PbWire
  import opened PbFormat

  /** A stream into a buffer of maxSize bytes, or one that only counts. */
  class OStream {
    const sizing: bool
    const maxSize: nat
    var output: Bytes  // what has been put in the buffer
    var bytesWritten: nat

    constructor Sizing()
      ensures Valid() && sizing && bytesWritten == 0
    {
      sizing, maxSize, output, bytesWritten := true, 0, [], 0;
    }

    constructor FromBuffer(size: nat)
      ensures Valid() && !sizing && maxSize == size && bytesWritten == 0 && output == []
    {
      sizing, maxSize, output, bytesWritten := false, size, [], 0;
    }

    // A stream of its own that goes on where another one is.
    constructor Sub(output: Bytes, size: nat)
      ensures Valid() && !sizing && maxSize == size && bytesWritten == 0 && this.output == output
    {
      sizing, maxSize, this.output, bytesWritten := false, size, output, 0;
    }

    predicate Room(n: nat)
      reads this
    {
      sizing || bytesWritten + n <= maxSize
    }

    // No more has been written than there was room for.
    predicate Valid()
      reads this
    {
      Room(0)
    }

    // What has come since is b.
    twostate predicate Appended(b: Bytes)
      reads this
    {
      && bytesWritten == old(bytesWritten) + |b|
      && output == if sizing then old(output) else old(output) + b
    }

    method Write(buf: Bytes) returns (ok: bool)
      requires Valid()
      modifies this
      ensures Valid()
      ensures ok == old(Room(|buf|)) && (ok ==> Appended(buf))
      ensures !ok ==> bytesWritten == old(bytesWritten)
    {
      if !sizing {
        if bytesWritten + |buf| > maxSize {
          return false;
        }
        output := output + buf;
      }
      bytesWritten := bytesWritten + |buf|;
      return true;
    }

    // Writes n bytes that are not looked at.
    method Count(n: nat) returns (ok: bool)
      requires sizing
      requires Valid()
      modifies this
      ensures Valid()
      ensures ok && bytesWritten == old(bytesWritten) + n && output == old(output)
    {
      bytesWritten := bytesWritten + n;
      return true;
    }

    method EncodeVarint(value: nat) returns (ok: bool)
      requires value < POW64
      requires Valid()
      modifies this
      ensures Valid()
      ensures ok == old(Room(|Varint(value)|)) && (ok ==> Appended(Varint(value)))
    {
      if value <= 0x7f {
        ok := Write([value]);
        return;
      }
      // Groups of seven bits, the top bit of the last one unset
      var buffer: Bytes := [];
      var rest: nat := value;
      while rest > 0
        invariant rest > 0 ==> buffer + Varint(rest) == Varint(value)
        invariant rest == 0 ==> buffer != [] && buffer[|buffer| - 1] >= 128
        invariant rest == 0 ==> buffer[|buffer| - 1 := buffer[|buffer| - 1] - 128] == Varint(value)
      {
        ghost var before := buffer;
        buffer := buffer + [rest % 128 + 128];
        if rest / 128 == 0 {
          assert buffer[|buffer| - 1 := buffer[|buffer| - 1] - 128] == before + [rest];
        } else {
          assert before + ([rest % 128 + 128] + Varint(rest / 128)) == buffer + Varint(rest / 128);
        }
        rest := rest / 128;
      }
      ok := Write(buffer[|buffer| - 1 := buffer[|buffer| - 1] - 128]);
    }

    method EncodeTag(wire: nat, tag: nat) returns (ok: bool)
      requires wire < 8 && tag <= MAX_TAG
      requires Valid()
      modifies this
      ensures Valid()
      ensures ok == old(Room(|TagBytes(wire, tag)|)) && (ok ==> Appended(TagBytes(wire, tag)))
    {
      ok := EncodeVarint(8 * tag + wire);
    }

    // A length, then that many bytes.
    method EncodeString(b: Bytes) returns (ok: bool)
      requires |b| < POW64
      requires Valid()
      modifies this
      ensures Valid()
      ensures ok == old(Room(|Prefixed(b)|)) && (ok ==> Appended(Prefixed(b)))
    {
      ghost var was := output;
      ok := EncodeVarint(|b|);
      if !ok {
        return;
      }
      ok := Write(b);
      Assoc(was, Varint(|b|), b);
    }
  }

  // ----- Values -----

  // A value of any kind but a submessage; a byte string is not written if it is too long.
  method EncodeScalar(s: OStream, k: Kind, v: Value) returns (ok: bool)
    requires ValidKind(k) && Shaped(k, v) && !k.Submessage? && |ScalarBytes(k, v)| < POW64
    requires s.Valid()
    modifies s
    ensures s.Valid()
    ensures ok == (Fits(k, v, ToEncode) && old(s.Room(|ScalarBytes(k, v)|)))
    ensures ok ==> s.Appended(ScalarBytes(k, v))
  {
    match k
    case VarInt(_) => ok := s.EncodeVarint(WireInt(k, v.i));
    case UVarInt(_) => ok := s.EncodeVarint(WireInt(k, v.i));
    case SVarInt(_) => ok := s.EncodeVarint(WireInt(k, v.i));
    case Fixed32Bits => ok := s.Write(Fixed32(v.i));
    case Fixed64Bits => ok := s.Write(Fixed64(v.i));
    case BytesArray(size) =>
      if |v.b| + BYTES_OFFSET > size {
        return false;
      }
      ok := s.EncodeString(v.b);
    case CString(_) => ok := s.EncodeString(v.b);
    case FixedBytes(_) => ok := s.EncodeString(v.b);
  }

  method EncodeValue(s: OStream, k: Kind, v: Value, ghost path: seq<nat>) returns (ok: bool)
    requires ValidKind(k) && Shaped(k, v) && |ValueBytes(k, v, NoneBetween, path)| < POW64
    requires s.Valid()
    modifies s
    ensures s.Valid()
    ensures ok == (Fits(k, v, ToEncode) && old(s.Room(|ValueBytes(k, v, NoneBetween, path)|)))
    ensures ok ==> s.Appended(ValueBytes(k, v, NoneBetween, path))
    decreases v, 0
  {
    if k.Submessage? {
      ok := EncodeSubmessage(s, k.fields, v.slots, path);
    } else {
      ok := EncodeScalar(s, k, v);
    }
  }

  /** A submessage after its size, which is found by encoding it to a stream that only counts. */
  method EncodeSubmessage(s: OStream, fs: seq<Field>, slots: seq<Slot>, ghost path: seq<nat>) returns (ok: bool)
    requires ValidFields(fs) && ShapedAll(fs, slots) && |Prefixed(MessageBytes(fs, slots, NoneBetween, path))| < POW64
    requires s.Valid()
    modifies s
    ensures s.Valid()
    ensures
      var b := Prefixed(MessageBytes(fs, slots, NoneBetween, path));
      ok == (FitsAll(fs, slots, ToEncode) && old(s.Room(|b|))) && (ok ==> s.Appended(b))
    decreases slots, |fs| + 2
  {
    ghost var body := MessageBytes(fs, slots, NoneBetween, path);
    ghost var was := s.output;
    // A sizing stream finds the length to write in front.
    var substream := new OStream.Sizing();
    var status := EncodeMessage(substream, fs, slots, path);
    if !status {
      return false;
    }
    var size := substream.bytesWritten;
    ok := s.EncodeVarint(size);
    if !ok {
      return;
    }
    if s.sizing {
      // Just sizing
      ok := s.Count(size);
      return;
    }
    if s.bytesWritten + size > s.maxSize {
      return false;
    }
    substream := new OStream.Sub(s.output, size);
    status := EncodeMessage(substream, fs, slots, path);
    s.bytesWritten := s.bytesWritten + substream.bytesWritten;
    s.output := substream.output;
    if substream.bytesWritten != size {
      // Without callbacks the size cannot change.
      assert false;
    }
    Assoc(was, Varint(|body|), body);
    return status;
  }

  // A value after its tag.
  method EncodeRecord(s: OStream, f: Field, v: Value, ghost fs: seq<Field>, ghost path: seq<nat>) returns (ok: bool)
    requires ValidField(f) && Shaped(f.kind, v) && |Record(fs, f, v, NoneBetween, path)| < POW64
    requires s.Valid()
    modifies s
    ensures s.Valid()
    ensures ok == (Fits(f.kind, v, ToEncode) && old(s.Room(|Record(fs, f, v, NoneBetween, path)|)))
    ensures ok ==> s.Appended(Record(fs, f, v, NoneBetween, path))
    decreases v, 1
  {
    ghost var was, tag := s.output, TagBytes(WireType(f.kind), f.tag);
    assert Record(fs, f, v, NoneBetween, path) == tag + ValueBytes(f.kind, v, NoneBetween, path);
    ok := s.EncodeTag(WireType(f.kind), f.tag);
    if !ok {
      return;
    }
    ok := EncodeValue(s, f.kind, v, path);
    Assoc(was, tag, ValueBytes(f.kind, v, NoneBetween, path));
  }

  // ----- Arrays -----

  // A stream that had `was` after start bytes will have `all` more once rest is written.
  predicate Awaits(sizing: bool, output: Bytes, written: nat, was: Bytes, start: nat, all: Bytes, rest: Bytes) {
    && start <= written && written + |rest| == start + |all|
    && (if sizing then output == was else output + rest == was + all)
  }

  lemma ItemWritten(sizing: bool, output: Bytes, written: nat, was: Bytes, start: nat, all: Bytes, item: Bytes, rest: Bytes)
    requires Awaits(sizing, output, written, was, start, all, item + rest)
    ensures Awaits(sizing, if sizing then output else output + item, written + |item|, was, start, all, rest)
    ensures written + |item| <= start + |all|
  {
    Assoc(output, item, rest);
  }

  lemma NothingAwaited(sizing: bool, output: Bytes, written: nat, was: Bytes, start: nat, all: Bytes)
    requires Awaits(sizing, output, written, was, start, all, [])
    ensures written == start + |all| && output == if sizing then was else was + all
  {
    assert output + [] == output;
  }

  lemma OneItemFewer(k: Kind, items: seq<Value>, i: nat)
    requires i < |items| && ValidKind(k) && !k.Submessage? && forall v :: v in items ==> Shaped(k, v)
    ensures PackedBytes(k, items[i..]) == ScalarBytes(k, items[i]) + PackedBytes(k, items[i + 1..])
  {
    assert items[i..][0] == items[i] && items[i..][1..] == items[i + 1..];
  }

  // Writes items one after the other, without tags.
  method EncodeItems(s: OStream, k: Kind, items: seq<Value>) returns (ok: bool)
    requires ValidKind(k) && !k.Submessage? && !k.BytesArray? && forall v :: v in items ==> Shaped(k, v)
    requires |PackedBytes(k, items)| < POW64
    requires s.Valid()
    modifies s
    ensures s.Valid()
    ensures ok == old(s.Room(|PackedBytes(k, items)|))
    ensures ok ==> s.Appended(PackedBytes(k, items))
  {
    ghost var was, start := s.output, s.bytesWritten;
    for i := 0 to |items|
      invariant s.Valid()
      invariant Awaits(s.sizing, s.output, s.bytesWritten, was, start, PackedBytes(k, items), PackedBytes(k, items[i..]))
    {
      assert items[i] in items;
      OneItemFewer(k, items, i);
      ItemWritten(s.sizing, s.output, s.bytesWritten, was, start, PackedBytes(k, items), ScalarBytes(k, items[i]),
                  PackedBytes(k, items[i + 1..]));
      ok := EncodeScalar(s, k, items[i]);
      if !ok {
        return;
      }
    }
    ok := true;
    NothingAwaited(s.sizing, s.output, s.bytesWritten, was, start, PackedBytes(k, items));
  }

  lemma {:induction false} FixedSizes(k: Kind, items: seq<Value>)
    requires ValidKind(k) && (k.Fixed32Bits? || k.Fixed64Bits?) && forall v :: v in items ==> Shaped(k, v)
    ensures |PackedBytes(k, items)| == (if k.Fixed32Bits? then 4 else 8) * |items|
  {
    if items != [] {
      FixedSizes(k, items[1..]);
    }
  }

  // The size of a packed array.
  method PackedSize(k: Kind, items: seq<Value>) returns (size: nat)
    requires ValidKind(k) && !k.Submessage? && !k.BytesArray? && forall v :: v in items ==> Shaped(k, v)
    requires |PackedBytes(k, items)| < POW64
    ensures size == |PackedBytes(k, items)|
  {
    if k.Fixed32Bits? {
      FixedSizes(k, items);
      size := 4 * |items|;
    } else if k.Fixed64Bits? {
      FixedSizes(k, items);
      size := 8 * |items|;
    } else {
      var sizeStream := new OStream.Sizing();
      var _ := EncodeItems(sizeStream, k, items);
      size := sizeStream.bytesWritten;
    }
  }

  /** An array: packed if its type allows it, else a record for each item. */
  method EncodeArray(s: OStream, f: Field, items: seq<Value>, ghost fs: seq<Field>, ghost path: seq<nat>) returns (ok: bool)
    requires ValidField(f) && f.rule.Repeated? && ShapedSlot(f, Many(items))
    requires |FieldBytes(fs, f, Many(items), NoneBetween, path)| < POW64
    requires s.Valid()
    modifies s
    ensures s.Valid()
    ensures ok == (FitsSlot(f, Many(items), ToEncode) && old(s.Room(|FieldBytes(fs, f, Many(items), NoneBetween, path)|)))
    ensures ok ==> s.Appended(FieldBytes(fs, f, Many(items), NoneBetween, path))
    decreases items, |items| + 1
  {
    if |items| == 0 {
      assert s.output + [] == s.output;
      return true;
    }
    if |items| > f.rule.max {
      return false;
    }
    if f.Packable() {
      ghost var tag, packed := TagBytes(WT_STRING, f.tag), PackedBytes(f.kind, items);
      ghost var was := s.output;
      assert FieldBytes(fs, f, Many(items), NoneBetween, path) == tag + Prefixed(packed);
      ok := s.EncodeTag(WT_STRING, f.tag);
      if !ok {
        return;
      }
      var size := PackedSize(f.kind, items);
      ok := s.EncodeVarint(size);
      if !ok {
        return;
      }
      Assoc(was, tag, Prefixed(packed));
      Assoc(was + tag, Varint(size), packed);
      if s.sizing {
        // Just sizing
        ok := s.Count(size);
        return;
      }
      ok := EncodeItems(s, f.kind, items);
    } else {
      ok := EncodeRecords(s, f, items, fs, path);
    }
  }

  method EncodeRecords(s: OStream, f: Field, items: seq<Value>, ghost fs: seq<Field>, ghost path: seq<nat>) returns (ok: bool)
    requires ValidField(f) && f.rule.Repeated? && ShapedSlot(f, Many(items))
    requires |ItemsFrom(fs, f, items, 0, NoneBetween, path)| < POW64
    requires s.Valid()
    modifies s
    ensures s.Valid()
    ensures
      var b := ItemsFrom(fs, f, items, 0, NoneBetween, path);
      ok == ((forall v :: v in items ==> Fits(f.kind, v, ToEncode)) && old(s.Room(|b|))) && (ok ==> s.Appended(b))
    decreases items, |items|
  {
    ghost var all, was, start := ItemsFrom(fs, f, items, 0, NoneBetween, path), s.output, s.bytesWritten;
    for i := 0 to |items|
      invariant s.Valid() && start <= s.bytesWritten && s.bytesWritten + |ItemsFrom(fs, f, items, i, NoneBetween, path)| == start + |all|
      invariant if s.sizing then s.output == was else s.output + ItemsFrom(fs, f, items, i, NoneBetween, path) == was + all
      invariant forall j :: 0 <= j < i ==> Fits(f.kind, items[j], ToEncode)
    {
      assert items[i] in items;
      Assoc(s.output, Record(fs, f, items[i], NoneBetween, path + [i]), ItemsFrom(fs, f, items, i + 1, NoneBetween, path));
      ok := EncodeRecord(s, f, items[i], fs, path + [i]);
      if !ok {
        return;
      }
    }
    ok := true;
    assert s.output + [] == s.output;
  }

  // ----- Messages -----

  method EncodeField(s: OStream, f: Field, slot: Slot, ghost fs: seq<Field>, ghost path: seq<nat>) returns (ok: bool)
    requires ValidField(f) && ShapedSlot(f, slot) && |FieldBytes(fs, f, slot, NoneBetween, path)| < POW64
    requires s.Valid()
    modifies s
    ensures s.Valid()
    ensures ok == (FitsSlot(f, slot, ToEncode) && old(s.Room(|FieldBytes(fs, f, slot, NoneBetween, path)|)))
    ensures ok ==> s.Appended(FieldBytes(fs, f, slot, NoneBetween, path))
    decreases slot
  {
    assert s.output + [] == s.output;
    match f.rule
    case Required => ok := EncodeRecord(s, f, slot.v, fs, path);
    case Optional =>
      ok := true;
      if slot.has {
        ok := EncodeRecord(s, f, slot.v, fs, path);
      }
    case Implicit =>
      ok := true;
      if !IsZero(f.kind, slot.v) {
        ok := EncodeRecord(s, f, slot.v, fs, path);
      }
    case Repeated(_) => ok := EncodeArray(s, f, slot.items, fs, path);
    case OneOf(_) =>
      ok := true;
      if slot.chosen.Some? {
        ok := EncodeRecord(s, f, slot.chosen.value, fs, path);
      }
  }

  /** Field after field.  Encoding succeeds exactly when every array and byte string is within its
      bounds and the stream has room for the whole message. */
  method EncodeMessage(s: OStream, fs: seq<Field>, slots: seq<Slot>, ghost path: seq<nat>) returns (ok: bool)
    requires ValidFields(fs) && ShapedAll(fs, slots) && |MessageBytes(fs, slots, NoneBetween, path)| < POW64
    requires s.Valid()
    modifies s
    ensures s.Valid()
    ensures ok == (FitsAll(fs, slots, ToEncode) && old(s.Room(|MessageBytes(fs, slots, NoneBetween, path)|)))
    ensures ok ==> s.Appended(MessageBytes(fs, slots, NoneBetween, path))
    decreases slots, |fs| + 1
  {
    ghost var all, was, start := MessageBytes(fs, slots, NoneBetween, path), s.output, s.bytesWritten;
    for i := 0 to |fs|
      invariant s.Valid() && start <= s.bytesWritten && s.bytesWritten + |FieldsFrom(fs, slots, i, NoneBetween, path)| == start + |all|
      invariant if s.sizing then s.output == was else s.output + FieldsFrom(fs, slots, i, NoneBetween, path) == was + all
      invariant forall j :: 0 <= j < i ==> FitsSlot(fs[j], slots[j], ToEncode)
    {
      assert fs[i] in fs;
      Assoc(s.output, FieldBytes(fs, fs[i], slots[i], NoneBetween, path + [i]), FieldsFrom(fs, slots, i + 1, NoneBetween, path));
      ok := EncodeField(s, fs[i], slots[i], fs, path + [i]);
      if !ok {
        return;
      }
    }
    ok := true;
    assert s.output + [] == s.output;
  }

  /** The size a message takes, without writing it. */
  method GetEncodedSize(fs: seq<Field>, slots: seq<Slot>) returns (ok: bool, size: nat)
    requires ValidFields(fs) && ShapedAll(fs, slots) && |Encoding(fs, slots)| < POW64
    ensures ok == FitsAll(fs, slots, ToEncode) && (ok ==> size == |Encoding(fs, slots)|)
  {
    var stream := new OStream.Sizing();
    ok := EncodeMessage(stream, fs, slots, []);
    size := stream.bytesWritten;
  }

  /** Into a buffer, encoding succeeds exactly when the size of the message can be found and is
      no more than that of the buffer; then that is how much is written. */
  method EncodeToBuffer(fs: seq<Field>, slots: seq<Slot>, bufferSize: nat) returns (ok: bool, output: Bytes)
    requires ValidFields(fs) && ShapedAll(fs, slots) && |Encoding(fs, slots)| < POW64
    ensures ok == (FitsAll(fs, slots, ToEncode) && |Encoding(fs, slots)| <= bufferSize)
    ensures ok ==> output == Encoding(fs, slots)
  {
    var stream := new OStream.FromBuffer(bufferSize);
    ok := EncodeMessage(stream, fs, slots, []);
    output := stream.output;
  }
}
