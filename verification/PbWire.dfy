/** The wire forms of Protocol Buffers: varints, tags, and what each wire type looks like. */
module PbWire {
  import opened Primitives
  import opened Coding
  import opened PbSchema

  const WT_VARINT: nat := 0
  const WT_64BIT: nat := 1
  const WT_STRING: nat := 2
  const WT_32BIT: nat := 5

  // ----- Integers -----

  // A value read from the stream, and what is left of it; on failure too, for the stream is
  // consumed all the same.
  datatype Read = Good(value: nat, rest: Bytes) | Bad(rest: Bytes)

  function ReadVarint(b: Bytes, most: nat, modulus: nat): (r: Read)
    requires modulus > 0
    ensures |r.rest| <= |b| && (b != [] && most > 0 ==> |r.rest| < |b|)
    ensures r.Good? ==> r.value < modulus
  {
    match ParseVarint(b, most)
    case Some(p) => Good(p.0 % modulus, b[p.1..])
    case None => Bad(if |b| < most then [] else b[most..])
  }

  function ReadVarint32(b: Bytes): Read {
    ReadVarint(b, 5, POW32)
  }

  function ReadVarint64(b: Bytes): Read {
    ReadVarint(b, 10, POW64)
  }

  lemma ReadsBack32(v: nat, rest: Bytes)
    requires v < POW32
    ensures ReadVarint32(Varint(v) + rest) == Good(v, rest)
  {
    Pow128Bounds();
    VarintRoundTrip(v, rest, 5);
  }

  lemma ReadsBack64(v: nat, rest: Bytes)
    requires v < POW64
    ensures ReadVarint64(Varint(v) + rest) == Good(v, rest)
  {
    Pow128Bounds();
    VarintRoundTrip(v, rest, 10);
  }

  // The number below n that is x in two's complement.
  function Unsigned(x: int, n: nat): nat
    requires n > 0
  {
    x % n
  }

  function Signed(u: nat, width: nat): int {
    var low := u % Pow256(width);
    if low < Half(width) then low else low - Pow256(width)
  }

  lemma Widths()
    ensures Pow256(1) == 0x100 && Pow256(2) == 0x1_0000 && Pow256(4) == POW32 && Pow256(8) == POW64
  {
    Pow256Widths();
    assert Pow256(1) == 256 * Pow256(0);
    assert Pow256(2) == 256 * Pow256(1);
  }

  function ZigZag(i: int): nat
    requires -Half(8) <= i < Half(8)
  {
    Widths();
    if i < 0 then POW64 - 1 - Unsigned(2 * i, POW64) else Unsigned(2 * i, POW64)
  }

  function UnZigZag(u: nat): int
    requires u < POW64
  {
    if u % 2 == 1 then Signed(POW64 - 1 - u / 2, 8) else Signed(u / 2, 8)
  }

  lemma UnZigZagUndoesZigZag(i: int)
    requires -Half(8) <= i < Half(8)
    ensures UnZigZag(ZigZag(i)) == i
  {
    Widths();
  }

  // The integer written for a value.
  function WireInt(k: Kind, i: int): (u: nat)
    requires k.VarInt? || k.UVarInt? || k.SVarInt?
    requires ValidKind(k) && Shaped(k, Int(i))
    ensures u < POW64
  {
    Widths();
    match k
    case VarInt(_) => Unsigned(i, POW64)
    case UVarInt(_) => i
    case SVarInt(_) => ZigZag(i)
  }

  // The value an integer is stored as; None if it does not fit the field.
  function StoredInt(k: Kind, u: nat): Option<int>
    requires k.VarInt? || k.UVarInt? || k.SVarInt?
    requires u < POW64
  {
    match k
    case VarInt(w) => Clamp(if w == 8 then Signed(u, 8) else Signed(u, 4), w)
    case UVarInt(w) => if u % Pow256(w) == u then Some(u) else None
    case SVarInt(w) => Clamp(UnZigZag(u), w)
  }

  function Clamp(i: int, width: nat): Option<int> {
    if Signed(Unsigned(i, Pow256(width)), width) == i then Some(i) else None
  }

  lemma ClampKeeps(i: int, width: nat)
    requires width in {1, 2, 4, 8} && -Half(width) <= i < Half(width)
    ensures Clamp(i, width) == Some(i)
  {
    Widths();
    UnsignedIs(i, Pow256(width));
  }

  lemma UnsignedIs(i: int, n: nat)
    requires n > 0 && 0 <= i + n && i < n
    ensures i < 0 ==> Unsigned(i, n) == i + n
    ensures i >= 0 ==> Unsigned(i, n) == i
  {
  }

  lemma SignComesBack(i: int, width: nat)
    requires width == 4 || width == 8
    requires -Half(width) <= i < Half(width)
    ensures Signed(Unsigned(i, POW64), width) == i
  {
    Widths();
    assert POW64 == POW32 * POW32;
    if i < 0 {
      assert Unsigned(i, POW64) == POW64 + i;
      if width == 4 {
        assert POW64 + i == (POW32 - 1) * POW32 + (POW32 + i);
      }
    }
  }

  lemma WidthOrder(width: nat)
    requires width in {1, 2, 4, 8}
    ensures Half(width) <= Half(8) && (width != 8 ==> Half(width) <= Half(4))
  {
    Widths();
  }

  /** An integer is stored as it was, at every width and sign. */
  lemma IntRoundTrip(k: Kind, i: int)
    requires k.VarInt? || k.UVarInt? || k.SVarInt?
    requires ValidKind(k) && Shaped(k, Int(i))
    ensures StoredInt(k, WireInt(k, i)) == Some(i)
  {
    WidthOrder(k.width);
    match k
    case VarInt(w) =>
      SignComesBack(i, if w == 8 then 8 else 4);
      ClampKeeps(i, w);
    case UVarInt(_) =>
    case SVarInt(w) =>
      ZigZagRoundTrip(i, w);
  }

  lemma ZigZagRoundTrip(i: int, width: nat)
    requires width in {1, 2, 4, 8} && -Half(width) <= i < Half(width)
    ensures -Half(8) <= i < Half(8) && ZigZag(i) < POW64 && Clamp(UnZigZag(ZigZag(i)), width) == Some(i)
  {
    WidthOrder(width);
    ZigZagFits(i);
    UnZigZagUndoesZigZag(i);
    ClampKeeps(i, width);
  }

  lemma ZigZagFits(i: int)
    requires -Half(8) <= i < Half(8)
    ensures ZigZag(i) < POW64
  {
    Widths();
  }

  // ----- Tags -----

  function WireType(k: Kind): nat {
    match k
    case VarInt(_) => WT_VARINT
    case UVarInt(_) => WT_VARINT
    case SVarInt(_) => WT_VARINT
    case Fixed32Bits => WT_32BIT
    case Fixed64Bits => WT_64BIT
    case _ => WT_STRING
  }

  function TagBytes(wire: nat, tag: nat): Bytes {
    Varint(8 * tag + wire)
  }

  // End is the end of the message, Unreadable a tag that cannot be read.
  datatype TagRead = Tag(tag: nat, wire: nat, rest: Bytes) | End(rest: Bytes) | Unreadable(rest: Bytes)

  function ReadTag(b: Bytes): (r: TagRead)
    ensures |r.rest| <= |b| && (b != [] ==> |r.rest| < |b|)
  {
    match ReadVarint32(b)
    case Bad(rest) => if rest == [] then End(rest) else Unreadable(rest)
    case Good(v, rest) => if v == 0 then End(rest) else Tag(v / 8, v % 8, rest)
  }

  lemma TagRoundTrip(wire: nat, tag: nat, rest: Bytes)
    requires wire < 8 && 0 < tag <= MAX_TAG
    ensures ReadTag(TagBytes(wire, tag) + rest) == Tag(tag, wire, rest)
  {
    ReadsBack32(8 * tag + wire, rest);
  }

  // ----- Fields that are not known -----

  function SkipVarint(b: Bytes): (r: Option<Bytes>)
    ensures r.Some? ==> |r.value| < |b|
  {
    if b == [] then None else if b[0] < 128 then Some(b[1..]) else SkipVarint(b[1..])
  }

  function Take(b: Bytes, n: nat): (r: Option<Bytes>)
    ensures r.Some? ==> |r.value| == |b| - n
  {
    if |b| < n then None else Some(b[n..])
  }

  function Skip(wire: nat, b: Bytes): (r: Option<Bytes>)
    ensures r.Some? ==> |r.value| <= |b|
  {
    if wire == WT_VARINT then SkipVarint(b)
    else if wire == WT_64BIT then Take(b, 8)
    else if wire == WT_STRING then
      match ReadVarint32(b)
      case Bad(_) => None
      case Good(n, rest) => Take(rest, n)
    else if wire == WT_32BIT then Take(b, 4)
    else None
  }

  // A field some other version of the message may have.
  datatype Unknown = Unknown(tag: nat, payload: Payload) {
    predicate Valid(fs: seq<Field>) {
      && 0 < tag <= MAX_TAG && (forall f :: f in fs ==> f.tag != tag)
      && match payload
         case AnyVarint(groups, last) => last < 128 && forall g :: g in groups ==> g >= 128
         case Raw64(b) => |b| == 8
         case Delimited(b) => |b| < POW32
         case Raw32(b) => |b| == 4
    }

    function Wire(): nat {
      match payload
      case AnyVarint(_, _) => WT_VARINT
      case Raw64(_) => WT_64BIT
      case Delimited(_) => WT_STRING
      case Raw32(_) => WT_32BIT
    }

    function PayloadBytes(): Bytes {
      match payload
      case AnyVarint(groups, last) => groups + [last]
      case Raw64(b) => b
      case Delimited(b) => Varint(|b|) + b
      case Raw32(b) => b
    }

    function Encoding(): Bytes {
      TagBytes(Wire(), tag) + PayloadBytes()
    }
  }

  datatype Payload = AnyVarint(groups: Bytes, last: Byte) | Raw64(b: Bytes) | Delimited(b: Bytes) | Raw32(b: Bytes)

  lemma {:induction false} SkipsVarint(groups: Bytes, last: Byte, rest: Bytes)
    requires last < 128 && forall g :: g in groups ==> g >= 128
    ensures SkipVarint(groups + [last] + rest) == Some(rest)
  {
    if groups != [] {
      assert groups[0] in groups && forall g :: g in groups[1..] ==> g in groups;
      SkipsVarint(groups[1..], last, rest);
      assert (groups + [last] + rest)[1..] == groups[1..] + [last] + rest;
    }
  }

  /** An unknown field of any wire type is skipped, and no more than it. */
  lemma {:induction false} SkipsUnknown(u: Unknown, fs: seq<Field>, rest: Bytes)
    requires u.Valid(fs)
    ensures Skip(u.Wire(), u.PayloadBytes() + rest) == Some(rest)
  {
    match u.payload
    case AnyVarint(groups, last) => SkipsVarint(groups, last, rest);
    case Delimited(b) =>
      assert Varint(|b|) + b + rest == Varint(|b|) + (b + rest);
      ReadsBack32(|b|, b + rest);
    case _ =>
  }
}
