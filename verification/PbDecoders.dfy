/** Decoding a message from a stream. */
module PbDecoders {
  import opened Primitives
  import opened Coding
  import opened PbSchema
  import opened PbWire
  import opened PbParsing
  import opened PbFieldIters

  class IStream {
    const buffer: Bytes
    var state: nat  // offset of the next byte
    var bytesLeft: nat

    predicate Valid()
      reads this
    {
      End() <= |buffer|
    }

    // What is still to be read.
    function Left(): (b: Bytes)
      requires Valid()
      reads this
      ensures |b| == bytesLeft
    {
      buffer[state..End()]
    }

    // Where it ends.
    function End(): nat
      reads this
    {
      state + bytesLeft
    }

    constructor FromBuffer(buffer: Bytes)
      ensures Valid() && Left() == buffer && this.buffer == buffer
    {
      this.buffer, state, bytesLeft := buffer, 0, |buffer|;
    }

    // The first size bytes of what another stream has left.
    constructor Sub(s: IStream, size: nat)
      requires s.Valid() && size <= s.bytesLeft
      ensures Valid() && buffer == s.buffer && state == s.state && Left() == s.Left()[..size]
    {
      buffer, state, bytesLeft := s.buffer, s.state, size;
    }

    method Read(count: nat) returns (ok: bool, b: Bytes)
      requires Valid()
      modifies this
      ensures Valid() && End() == old(End()) && ok == (count <= old(bytesLeft))
      ensures ok ==> b == old(Left())[..count] && Left() == old(Left())[count..]
      ensures !ok ==> Left() == old(Left())
    {
      if bytesLeft < count {
        return false, [];
      }
      b := buffer[state..state + count];
      state, bytesLeft := state + count, bytesLeft - count;
      return true, b;
    }

    method ReadByte() returns (ok: bool, b: Byte)
      requires Valid()
      modifies this
      ensures Valid() && End() == old(End()) && ok == (old(bytesLeft) > 0)
      ensures if ok then b == old(Left())[0] && Left() == old(Left())[1..] else Left() == old(Left())
    {
      if bytesLeft == 0 {
        return false, 0;
      }
      b := buffer[state];
      state, bytesLeft := state + 1, bytesLeft - 1;
      return true, b;
    }

    /** A varint into an integer of modulus values; an error after `most` bytes that all say that
        more follow. */
    method DecodeVarint(most: nat, modulus: nat) returns (ok: bool, value: nat)
      requires Valid() && modulus > 0
      modifies this
      ensures Valid() && End() == old(End())
      ensures match ReadVarint(old(Left()), most, modulus)
              case Good(v, rest) => ok && value == v && Left() == rest
              case Bad(rest) => !ok && Left() == rest
    {
      ghost var b := Left();
      var bytes: nat, shift: nat := 0, 1;
      value := 0;
      AgreesAtFirst(b, most);
      while bytes < most
        invariant Valid() && End() == old(End()) && bytes <= most && bytes <= |b| && Left() == b[bytes..]
        invariant Agrees(b, bytes, most, value, shift)
        decreases most - bytes
      {
        var byte;
        ok, byte := ReadByte();
        if !ok {
          NoLastGroup(b, bytes, most, value, shift);
          VarintIsNot(b, bytes, most, modulus);
          return;
        }
        if byte < 128 {
          LastGroup(b, bytes, most, value, shift);
          value := WithGroup(value, byte, shift);
          VarintIs(b, most, modulus, value, bytes + 1);
          return true, value % modulus;
        }
        NextGroup(b, bytes, most, value, shift);
        value, shift := WithGroup(value, byte - 128, shift), shift * 128;
        bytes := bytes + 1;
      }
      NoLastGroup(b, bytes, most, value, shift);
      VarintIsNot(b, bytes, most, modulus);
      return false, 0;
    }

    method DecodeVarint32() returns (ok: bool, value: nat)
      requires Valid()
      modifies this
      ensures Valid() && End() == old(End())
      ensures match ReadVarint32(old(Left()))
              case Good(v, rest) => ok && value == v && Left() == rest
              case Bad(rest) => !ok && Left() == rest
    {
      ok, value := DecodeVarint(5, POW32);
    }

    method DecodeTag() returns (r: TagRead)
      requires Valid()
      modifies this
      ensures Valid() && End() == old(End()) && r == ReadTag(old(Left())) && Left() == r.rest
    {
      var ok, temp := DecodeVarint32();
      if !ok {
        return if bytesLeft == 0 then TagRead.End(Left()) else Unreadable(Left());
      }
      if temp == 0 {
        // A zero where a tag should be ends a message.
        return TagRead.End(Left());
      }
      return Tag(temp / 8, temp % 8, Left());
    }

    method SkipVarint() returns (ok: bool)
      requires Valid()
      modifies this
      ensures Valid() && End() == old(End())
      ensures match PbWire.SkipVarint(old(Left())) case None => !ok case Some(rest) => ok && Left() == rest
    {
      var more := true;
      while more
        invariant Valid() && End() == old(End())
        invariant if more then PbWire.SkipVarint(Left()) == old(PbWire.SkipVarint(Left()))
                  else old(PbWire.SkipVarint(Left())) == Some(Left())
        decreases more, bytesLeft
      {
        var b;
        ok, b := Read(1);
        if !ok {
          return;
        }
        more := b[0] >= 128;
      }
      return true;
    }

    // Passes over a field that is not known.
    method SkipField(wire: nat) returns (ok: bool)
      requires Valid()
      modifies this
      ensures Valid() && End() == old(End())
      ensures match Skip(wire, old(Left())) case None => !ok case Some(rest) => ok && Left() == rest
    {
      var length, b := 0, [];
      if wire == WT_VARINT {
        ok := SkipVarint();
      } else if wire == WT_64BIT {
        ok, b := Read(8);
      } else if wire == WT_STRING {
        ok, length := DecodeVarint32();
        if ok {
          ok, b := Read(length);
        }
      } else if wire == WT_32BIT {
        ok, b := Read(4);
      } else {
        ok := false;
      }
    }

    // A stream over a length-delimited value, which comes out of this one.
    method MakeStringSubstream() returns (substream: Option<IStream>)
      requires Valid()
      modifies this
      ensures match Substream(old(Left()))
              case None => substream.None?
              case Some(p) =>
                && substream.Some? && fresh(substream.value) && substream.value.Valid() && substream.value.Left() == p.0
                && substream.value.buffer == buffer && substream.value.End() + bytesLeft == old(End())
                && buffer[substream.value.End()..old(End())] == p.1
      ensures Valid() && End() <= old(End())
    {
      var ok, size := DecodeVarint32();
      if !ok || bytesLeft < size {
        return None;
      }
      ghost var left := Left();
      var sub := new IStream.Sub(this, size);
      bytesLeft := bytesLeft - size;
      assert left[size..] == buffer[state + size..old(End())];
      return Some(sub);
    }

    // Goes on after a value that a stream was made for, whether or not all of it has been read.
    method CloseStringSubstream(substream: IStream)
      requires substream != this && substream.Valid() && substream.buffer == buffer
      requires substream.End() + bytesLeft <= |buffer|
      modifies this, substream
      ensures Valid() && End() == old(substream.End() + bytesLeft)
      ensures Left() == old(buffer[substream.End()..substream.End() + bytesLeft])
    {
      if substream.bytesLeft > 0 {
        var _, _ := substream.Read(substream.bytesLeft);
      }
      state := substream.state;
    }
  }

  lemma VarintIs(b: Bytes, most: nat, modulus: nat, value: nat, n: nat)
    requires ParseVarint(b, most) == Some((value, n)) && modulus > 0
    ensures n <= |b| && ReadVarint(b, most, modulus) == Good(value % modulus, b[n..])
  {
  }

  lemma VarintIsNot(b: Bytes, p: nat, most: nat, modulus: nat)
    requires ParseVarint(b, most) == None && modulus > 0 && p <= |b| && p <= most && (p == |b| || p == most)
    ensures ReadVarint(b, most, modulus) == Bad(b[p..])
  {
    assert p == |b| ==> b[p..] == [];
  }

  // ----- Values -----

  method DecodeInt(s: IStream, k: Kind) returns (r: Option<Value>)
    requires s.Valid() && ValidKind(k) && (k.VarInt? || k.UVarInt? || k.SVarInt?)
    modifies s
    ensures s.Valid() && s.End() == old(s.End())
    ensures match ParseInt(k, old(s.Left()))
            case None => r.None?
            case Some(p) => r == Some(p.0) && s.Left() == p.1
  {
    var ok, u := s.DecodeVarint(10, POW64);
    if !ok {
      return None;
    }
    var i := StoredInt(k, u);
    // None: integer too large
    r := if i.Some? then Some(Int(i.value)) else None;
  }

  method DecodeFixed(s: IStream, width: nat) returns (r: Option<Value>)
    requires s.Valid() && (width == 4 || width == 8)
    modifies s
    ensures s.Valid() && s.End() == old(s.End())
    ensures r.Some? == (width <= old(s.bytesLeft))
    ensures r.Some? ==> Some((r.value, s.Left())) == ParseFixed(old(s.Left()), width)
  {
    var ok, b := s.Read(width);
    r := if ok then Some(Int(Coding.DecodeFixed(b))) else None;
  }

  method DecodeBlob(s: IStream, k: Kind) returns (r: Option<Value>)
    requires s.Valid() && (k.BytesArray? || k.CString? || k.FixedBytes?)
    modifies s
    ensures s.Valid() && s.End() == old(s.End())
    ensures match ParseBlob(k, old(s.Left()))
            case None => r.None?
            case Some(p) => r == Some(p.0) && s.Left() == p.1
  {
    var ok, size := s.DecodeVarint32();
    if !ok {
      return None;
    }
    match k {
      case BytesArray(room) =>
        if size + BYTES_OFFSET > room {
          return None;
        }
      case CString(room) =>
        // One more for the NUL.
        if size + 1 > room {
          return None;
        }
      case FixedBytes(room) =>
        if size == 0 {
          // Nothing at all stands for zeros throughout.
          return Some(Blob(seq(room, _ => 0)));
        }
        if size != room {
          return None;
        }
    }
    var b;
    ok, b := s.Read(size);
    if !ok {
      return None;
    }
    return Some(Blob(if k.CString? then UntilNul(b) else b));
  }

  method DecodeScalar(s: IStream, k: Kind) returns (r: Option<Value>)
    requires s.Valid() && ValidKind(k) && !k.Submessage?
    modifies s
    ensures s.Valid() && s.End() == old(s.End())
    ensures match ParseScalar(k, old(s.Left()))
            case None => r.None?
            case Some(p) => r == Some(p.0) && s.Left() == p.1
  {
    match k {
      case Fixed32Bits => r := DecodeFixed(s, 4);
      case Fixed64Bits => r := DecodeFixed(s, 8);
      case BytesArray(_) => r := DecodeBlob(s, k);
      case CString(_) => r := DecodeBlob(s, k);
      case FixedBytes(_) => r := DecodeBlob(s, k);
      case VarInt(_) => r := DecodeInt(s, k);
      case UVarInt(_) => r := DecodeInt(s, k);
      case SVarInt(_) => r := DecodeInt(s, k);
    }
  }

  // ----- Fields -----

  // A packed array, after the items that are there.
  method DecodeItems(s: IStream, k: Kind, items: seq<Value>, max: nat) returns (r: Option<seq<Value>>)
    requires s.Valid() && ValidKind(k) && !k.Submessage? && |items| <= max
    requires forall v :: v in items ==> Shaped(k, v) && Fits(k, v, ToHold)
    modifies s
    ensures s.Valid() && s.End() <= old(s.End()) && (r.Some? ==> s.End() == old(s.End()))
    ensures r == old(ParseItems(k, items, max, s.Left()))
    ensures r.Some? ==> s.bytesLeft == 0
  {
    var all := items;
    while s.bytesLeft > 0 && |all| < max
      invariant s.Valid() && s.End() == old(s.End())
      invariant |all| <= max && forall v :: v in all ==> Shaped(k, v) && Fits(k, v, ToHold)
      invariant ParseItems(k, all, max, s.Left()) == old(ParseItems(k, items, max, s.Left()))
      decreases s.bytesLeft
    {
      var item := DecodeScalar(s, k);
      if item.None? {
        return None;
      }
      all := all + [item.value];
    }
    // None: array overflow
    return if s.bytesLeft == 0 then Some(all) else None;
  }

  method DecodeField(s: IStream, f: Field, slot: Slot, wire: nat) returns (r: Option<Slot>)
    requires s.Valid() && ValidField(f) && ShapedSlot(f, slot) && FitsSlot(f, slot, ToHold)
    modifies s
    ensures s.Valid() && s.End() <= old(s.End()) && (r.Some? ==> s.End() == old(s.End()))
    ensures match ParseField(f, slot, wire, old(s.Left()))
            case None => r.None?
            case Some(p) => r == Some(p.0) && s.Left() == p.1
    decreases f
  {
    r := None;
    var v;
    match f.rule {
      case Required =>
        v := DecodeValue(s, f.kind, slot.v);
        r := if v.Some? then Some(One(v.value)) else None;
      case Implicit =>
        v := DecodeValue(s, f.kind, slot.v);
        r := if v.Some? then Some(One(v.value)) else None;
      case Optional =>
        v := DecodeValue(s, f.kind, slot.v);
        r := if v.Some? then Some(Maybe(true, v.value)) else None;
      case OneOf(_) =>
        DefaultIsSound(f);
        v := DecodeValue(s, f.kind, DefaultValue(f));
        r := if v.Some? then Some(Choice(Some(v.value))) else None;
      case Repeated(max) =>
        if wire == WT_STRING && f.Packable() {
          r := DecodePacked(s, f, slot.items);
        } else if |slot.items| < max {
          DefaultIsSound(f);
          v := DecodeValue(s, f.kind, DefaultValue(f));
          r := if v.Some? then Some(Many(slot.items + [v.value])) else None;
        }
    }
  }

  method DecodePacked(s: IStream, f: Field, items: seq<Value>) returns (r: Option<Slot>)
    requires s.Valid() && ValidField(f) && f.rule.Repeated? && f.Packable()
    requires ShapedSlot(f, Many(items)) && FitsSlot(f, Many(items), ToHold)
    modifies s
    ensures s.Valid() && s.End() <= old(s.End()) && (r.Some? ==> s.End() == old(s.End()))
    ensures match ParseField(f, Many(items), WT_STRING, old(s.Left()))
            case None => r.None?
            case Some(p) => r == Some(p.0) && s.Left() == p.1
  {
    var sub := s.MakeStringSubstream();
    if sub.None? {
      return None;
    }
    var all := DecodeItems(sub.value, f.kind, items, f.rule.max);
    if all.None? {
      return None;
    }
    s.CloseStringSubstream(sub.value);
    return Some(Many(all.value));
  }

  method DecodeValue(s: IStream, k: Kind, was: Value) returns (r: Option<Value>)
    requires s.Valid() && ValidKind(k) && (k.Submessage? ==> Shaped(k, was) && Fits(k, was, ToHold))
    modifies s
    ensures s.Valid() && s.End() <= old(s.End()) && (r.Some? ==> s.End() == old(s.End()))
    ensures match ParseValue(k, was, old(s.Left()))
            case None => r.None?
            case Some(p) => r == Some(p.0) && s.Left() == p.1
    decreases k
  {
    if !k.Submessage? {
      r := DecodeScalar(s, k);
      return;
    }
    var sub := s.MakeStringSubstream();
    if sub.None? {
      return None;
    }
    var slots := DecodeNoInit(sub.value, k.fields, was.slots);
    s.CloseStringSubstream(sub.value);
    r := if slots.Some? then Some(Message(slots.value)) else None;
  }

  method DecodeNoInit(s: IStream, fs: seq<Field>, dest: seq<Slot>) returns (r: Option<seq<Slot>>)
    requires s.Valid() && ValidFields(fs) && ShapedAll(fs, dest) && FitsAll(fs, dest, ToHold)
    modifies s
    ensures s.Valid() && s.End() <= old(s.End()) && (r.Some? ==> s.End() == old(s.End()))
    ensures match ParseMessage(fs, dest, old(s.Left()))
            case None => r.None?
            case Some(p) => r == Some(p.0) && s.Left() == p.1
    decreases fs, 3
  {
    ghost var whole := ParseFields(fs, dest, {}, s.Left());
    ghost var seen: set<nat> := {};
    var slots := dest;
    var fieldsSeen: seq<BitWord> := [{}, {}];
    NothingMarked(fs);
    var iter := new FieldIter(fs);
    var more := s.bytesLeft > 0;
    while more
      invariant s.Valid() && s.End() == old(s.End()) && iter.start == fs && iter.Valid()
      invariant ShapedAll(fs, slots) && FitsAll(fs, slots, ToHold) && Marked(fs, fieldsSeen, seen)
      invariant more ==> s.bytesLeft > 0 && whole == ParseFields(fs, slots, seen, s.Left())
      invariant !more ==> whole == Some(Fields(slots, seen, s.Left()))
      decreases more, s.bytesLeft
    {
      var next;
      next, fieldsSeen, more, seen := DecodeOne(s, iter, slots, fieldsSeen, seen);
      if next.None? {
        return None;
      }
      slots := next.value;
    }
    var all := RequiredFieldsSeen(iter, fieldsSeen, seen);
    r := if all then Some(slots) else None;
  }

  // One tag and what follows it.
  method DecodeOne(s: IStream, iter: FieldIter, slots: seq<Slot>, words: seq<BitWord>, ghost seen: set<nat>)
    returns (r: Option<seq<Slot>>, newWords: seq<BitWord>, more: bool, ghost newSeen: set<nat>)
    requires s.Valid() && s.bytesLeft > 0 && iter.Valid() && Marked(iter.start, words, seen)
    requires ValidFields(iter.start) && ShapedAll(iter.start, slots) && FitsAll(iter.start, slots, ToHold)
    modifies s, iter
    ensures s.Valid() && s.End() <= old(s.End()) && (r.Some? ==> s.End() == old(s.End()))
    ensures iter.Valid()
    ensures match r
            case None => old(ParseFields(iter.start, slots, seen, s.Left())) == None
            case Some(next) =>
              && ShapedAll(iter.start, next) && FitsAll(iter.start, next, ToHold) && Marked(iter.start, newWords, newSeen)
              && (more ==> 0 < s.bytesLeft < old(s.bytesLeft))
              && old(ParseFields(iter.start, slots, seen, s.Left()))
                 == if more then ParseFields(iter.start, next, newSeen, s.Left()) else Some(Fields(next, newSeen, s.Left()))
    decreases iter.start, 2
  {
    ghost var fs := iter.start;
    r, newWords, more, newSeen := None, words, false, seen;
    var tag := s.DecodeTag();
    if tag.End? {
      return Some(slots), words, false, seen;
    } else if tag.Unreadable? {
      return;
    }
    var found := iter.Find(tag.tag);
    if !found {
      // Not a field of the message.
      var ok := s.SkipField(tag.wire);
      if ok {
        r := Some(slots);
      }
    } else if |iter.start| > 0 {
      var i := iter.pos;
      assert fs[i] in fs;
      if fs[i].rule.Required? {
        OneMoreMarked(fs, words, seen, i);
      }
      if iter.start[i].rule.Required? && iter.requiredFieldIndex < 64 {
        newWords := MarkSeen(words, iter.requiredFieldIndex);
      }
      newSeen := if fs[i].rule.Required? then seen + {i} else seen;
      r := DecodeInto(s, iter.start, slots, i, tag.wire);
    }
    // Otherwise the terminator is taken for a field, which has no size.
    more := s.bytesLeft > 0;
  }

  method DecodeInto(s: IStream, fs: seq<Field>, slots: seq<Slot>, i: nat, wire: nat) returns (r: Option<seq<Slot>>)
    requires s.Valid() && i < |fs| && ValidField(fs[i]) && ShapedAll(fs, slots) && FitsAll(fs, slots, ToHold)
    modifies s
    ensures s.Valid() && s.End() <= old(s.End()) && (r.Some? ==> s.End() == old(s.End()))
    ensures match ParseField(fs[i], slots[i], wire, old(s.Left()))
            case None => r.None?
            case Some(p) =>
              && r == Some(Store(fs, slots, i, p.0)) && s.Left() == p.1
              && ShapedAll(fs, r.value) && FitsAll(fs, r.value, ToHold)
    decreases fs, 1
  {
    var slot := DecodeField(s, fs[i], slots[i], wire);
    if slot.None? {
      return None;
    }
    StoreKeepsShape(fs, slots, i, slot.value);
    return Some(Store(fs, slots, i, slot.value));
  }

  // ----- Required fields -----

  // A word of 32 bits, as the positions of those that are set.
  type BitWord = set<nat>

  function LowBits(n: nat): (w: BitWord)
    ensures forall b: nat :: b in w <==> b < n
  {
    if n == 0 then {} else LowBits(n - 1) + {n - 1}
  }

  predicate Bit(words: seq<BitWord>, r: nat)
    requires |words| == 2 && r < 64
  {
    r % 32 in words[r / 32]
  }

  function MarkSeen(words: seq<BitWord>, index: nat): seq<BitWord>
    requires |words| == 2 && index < 64
  {
    words[index / 32 := words[index / 32] + {index % 32}]
  }

  // The first n bits are set.
  ghost predicate LowSet(words: seq<BitWord>, n: nat)
    requires |words| == 2 && n < 64
  {
    forall r: nat :: r < n ==> Bit(words, r)
  }

  // The bits of the required fields that have been seen are set, and no others.
  ghost predicate Marked(fs: seq<Field>, words: seq<BitWord>, seen: set<nat>) {
    && |words| == 2 && CountRequired(fs) < 64
    && words[0] <= LowBits(32) && words[1] <= LowBits(32)
    && (forall r: nat :: r < 64 && Bit(words, r) ==> r < CountRequired(fs))
    && (forall i: nat :: i < |fs| && fs[i].rule.Required? ==> Index(fs, i) < 64 && (Bit(words, Index(fs, i)) <==> i in seen))
  }

  function Index(fs: seq<Field>, i: nat): nat
    requires i < |fs|
  {
    RequiredBefore(fs, i)
  }

  lemma IndexBound(fs: seq<Field>, i: nat)
    requires i < |fs| && fs[i].rule.Required?
    ensures Index(fs, i) < CountRequired(fs)
  {
    RequiredBeforeGrows(fs, i, |fs|);
    assert fs[..|fs|] == fs;
  }

  lemma NothingMarked(fs: seq<Field>)
    requires ValidFields(fs)
    ensures Marked(fs, [{}, {}], {})
  {
    forall i: nat | i < |fs| && fs[i].rule.Required? ensures Index(fs, i) < 64 {
      IndexBound(fs, i);
    }
  }

  lemma OneMoreMarked(fs: seq<Field>, words: seq<BitWord>, seen: set<nat>, i: nat)
    requires Marked(fs, words, seen) && i < |fs| && fs[i].rule.Required?
    ensures Index(fs, i) < 64 && Marked(fs, MarkSeen(words, Index(fs, i)), seen + {i})
  {
    IndexBound(fs, i);
    var index := Index(fs, i);
    var after := MarkSeen(words, index);
    assert forall r: nat :: r < 64 ==> (Bit(after, r) <==> r == index || Bit(words, r));
    forall j: nat | j < |fs| && fs[j].rule.Required? && j != i ensures Index(fs, j) != index {
      if j < i {
        RequiredBeforeGrows(fs, j, i);
      } else {
        RequiredBeforeGrows(fs, i, j);
      }
    }
  }

  lemma AllSeenIsAllBits(fs: seq<Field>, words: seq<BitWord>, seen: set<nat>)
    requires Marked(fs, words, seen)
    ensures AllSeen(fs, seen) <==> LowSet(words, CountRequired(fs))
  {
    assert fs[..|fs|] == fs;
    if AllSeen(fs, seen) {
      forall r: nat | r < CountRequired(fs) ensures Bit(words, r) {
        var i := RequiredAt(fs, r, |fs|);
        assert Index(fs, i) == r;
      }
    }
    if LowSet(words, CountRequired(fs)) {
      forall i: nat | i < |fs| && fs[i].rule.Required? ensures i in seen {
        IndexBound(fs, i);
      }
    }
  }

  lemma SomeBitMissing(words: seq<BitWord>, w: nat, n: nat, count: nat)
    requires |words| == 2 && w < 2 && n <= 32 && 32 * w + n <= count < 64
    requires words[w] <= LowBits(n) && words[w] != LowBits(n)
    ensures !LowSet(words, count)
  {
    var b :| b in LowBits(n) && b !in words[w];
    PlaceOfBit(w, b);
    assert !Bit(words, 32 * w + b);
  }

  lemma PlaceOfBit(w: nat, b: nat)
    requires b < 32
    ensures (32 * w + b) % 32 == b && (32 * w + b) / 32 == w
  {
  }

  lemma LastWordIsLow(fs: seq<Field>, words: seq<BitWord>, seen: set<nat>)
    requires Marked(fs, words, seen)
    ensures words[CountRequired(fs) / 32] <= LowBits(CountRequired(fs) % 32)
  {
    var w := CountRequired(fs) / 32;
    forall b | b in words[w] ensures b < CountRequired(fs) % 32 {
      assert b in LowBits(32);
      PlaceOfBit(w, b);
      assert Bit(words, 32 * w + b);
    }
  }

  /** Have all required fields been seen?  Counts them by going on to the last field, then looks
      at whole words and at the remaining bits. */
  lemma WholeWordsSeen(words: seq<BitWord>, w: nat, n: nat)
    requires |words| == 2 && w < 2 && n <= 32 && 32 * w + n < 64
    requires LowSet(words, 32 * w) && words[w] == LowBits(n)
    ensures LowSet(words, 32 * w + n)
  {
    forall r: nat | 32 * w <= r < 32 * w + n ensures Bit(words, r) {
      assert r / 32 == w && r % 32 in LowBits(n);
    }
  }

  method RequiredFieldsSeen(iter: FieldIter, words: seq<BitWord>, ghost seen: set<nat>) returns (all: bool)
    requires iter.Valid() && ValidFields(iter.start) && Marked(iter.start, words, seen)
    modifies iter
    ensures all == AllSeen(iter.start, seen)
  {
    var count := CountToTheEnd(iter);
    AllSeenIsAllBits(iter.start, words, seen);
    if count > 0 {
      var i := 0;
      while i < count / 32
        invariant i <= count / 32 && LowSet(words, 32 * i)
      {
        if words[i] != LowBits(32) {
          SomeBitMissing(words, i, 32, count);
          return false;
        }
        WholeWordsSeen(words, i, 32);
        i := i + 1;
      }
      LastWordIsLow(iter.start, words, seen);
      if words[count / 32] != LowBits(count % 32) {
        SomeBitMissing(words, count / 32, count % 32, count);
        return false;
      }
      WholeWordsSeen(words, count / 32, count % 32);
    }
    return true;
  }

  method CountToTheEnd(iter: FieldIter) returns (count: nat)
    requires iter.Valid() && ValidFields(iter.start)
    modifies iter
    ensures count == CountRequired(iter.start)
  {
    var last := false;
    var more := true;
    count := 0;
    while more
      invariant iter.Valid() && (!more ==> iter.pos == 0)
      invariant !more && iter.start != [] ==>
        count == RequiredBefore(iter.start, |iter.start| - 1) && last == iter.start[|iter.start| - 1].rule.Required?
      invariant !more && iter.start == [] ==> count == 0
      decreases more, |iter.start| - iter.pos
    {
      count := iter.requiredFieldIndex;
      last := iter.pos < |iter.start| && iter.start[iter.pos].rule.Required?;
      more := iter.Next();
    }
    if iter.start != [] {
      RequiredBeforeNext(iter.start, |iter.start| - 1);
      assert iter.start[..|iter.start|] == iter.start;
      assert iter.start[0] in iter.start;
    }
    // The last field itself may be required.
    if last && iter.Tag() != 0 {
      count := count + 1;
    }
  }

  // ----- Messages -----

  /** Decodes into a struct set to its defaults. */
  method Decode(s: IStream, fs: seq<Field>) returns (r: Option<seq<Slot>>)
    requires s.Valid() && ValidFields(fs)
    modifies s
    ensures s.Valid()
    ensures match Parse(fs, old(s.Left()))
            case None => r.None?
            case Some(p) => r == Some(p.0) && s.Left() == p.1
  {
    DefaultsAreSound(fs);
    r := DecodeNoInit(s, fs, Defaults(fs));
  }
}
