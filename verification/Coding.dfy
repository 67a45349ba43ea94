/** Fixed-width integers, varints and length-prefixed strings as bytes. */
module Coding {
  import opened Primitives

  const POW32: nat := 0x1_0000_0000
  const POW64: nat := 0x1_0000_0000_0000_0000

  // What 32 bits hold.
  type Word = w: nat | w < POW32

  // ----- Fixed-width, little-endian -----

  function Fixed(v: nat, width: nat): (b: Bytes)
    ensures |b| == width
  {
    if width == 0 then [] else [v % 256] + Fixed(v / 256, width - 1)
  }

  function DecodeFixed(b: Bytes): nat {
    if b == [] then 0 else b[0] + 256 * DecodeFixed(b[1..])
  }

  function Pow256(width: nat): (p: nat)
    ensures p > 0
  {
    if width == 0 then 1 else 256 * Pow256(width - 1)
  }

  lemma {:induction false} FixedRoundTrip(v: nat, width: nat)
    requires v < Pow256(width)
    ensures DecodeFixed(Fixed(v, width)) == v
  {
    if width > 0 {
      assert v / 256 < Pow256(width - 1);
      FixedRoundTrip(v / 256, width - 1);
      assert Fixed(v, width)[1..] == Fixed(v / 256, width - 1);
    }
  }

  function Fixed32(v: nat): Bytes {
    Fixed(v, 4)
  }

  function Fixed64(v: nat): Bytes {
    Fixed(v, 8)
  }

  lemma Pow256Widths()
    ensures Pow256(4) == POW32 && Pow256(8) == POW64
  {
    assert Pow256(2) == 65536;
    assert Pow256(4) == 256 * 256 * Pow256(2);
    assert Pow256(6) == 256 * 256 * Pow256(4);
  }

  // ----- Varints -----

  // Seven bits a byte, low bits first; the high bit says that more follow.
  function Varint(v: nat): (b: Bytes)
    ensures |b| > 0
  {
    if v < 128 then [v] else [v % 128 + 128] + Varint(v / 128)
  }

  // The value at the front of b, in at most `most` bytes, and how many bytes it takes.
  function ParseVarint(b: Bytes, most: nat): (r: Option<(nat, nat)>)
    ensures r.Some? ==> 0 < r.value.1 <= |b| && r.value.1 <= most
  {
    if b == [] || most == 0 then None
    else if b[0] < 128 then Some((b[0], 1))
    else
      match ParseVarint(b[1..], most - 1)
      case None => None
      case Some(r) => Some((b[0] - 128 + 128 * r.0, r.1 + 1))
  }

  function Pow128(n: nat): (p: nat)
    ensures p > 0
  {
    if n == 0 then 1 else 128 * Pow128(n - 1)
  }

  lemma {:induction false} VarintRoundTrip(v: nat, rest: Bytes, most: nat)
    requires most > 0 && v < Pow128(most)
    ensures ParseVarint(Varint(v) + rest, most) == Some((v, |Varint(v)|))
    ensures |Varint(v)| <= most
  {
    if v >= 128 {
      VarintRoundTrip(v / 128, rest, most - 1);
      assert (Varint(v) + rest)[1..] == Varint(v / 128) + rest;
    }
  }

  lemma Pow128Bounds()
    ensures POW32 <= Pow128(5) && POW64 <= Pow128(10)
  {
    assert Pow128(3) == 2097152;
    assert Pow128(5) == 128 * 128 * Pow128(3);
    assert Pow128(7) == 128 * 128 * Pow128(5);
    assert Pow128(9) == 128 * 128 * Pow128(7);
  }

  // The unrolled 32-bit encoder.
  method EncodeVarint32(v: nat) returns (b: Bytes)
    requires v < POW32
    ensures b == Varint(v)
  {
    var v1, v2, v3, v4 := v / 0x80, v / 0x4000, v / 0x20_0000, v / 0x1000_0000;
    assert v1 / 128 == v2 && v2 / 128 == v3 && v3 / 128 == v4;
    if v < 0x80 {
      b := [v];
    } else if v < 0x4000 {
      assert Varint(v1) == [v1];
      b := [v % 128 + 128, v1];
    } else if v < 0x20_0000 {
      assert Varint(v1) == [v1 % 128 + 128] + Varint(v2);
      b := [v % 128 + 128, v1 % 128 + 128, v2];
    } else if v < 0x1000_0000 {
      assert Varint(v2) == [v2 % 128 + 128] + Varint(v3);
      assert Varint(v1) == [v1 % 128 + 128] + Varint(v2);
      b := [v % 128 + 128, v1 % 128 + 128, v2 % 128 + 128, v3];
    } else {
      assert Varint(v3) == [v3 % 128 + 128] + Varint(v4);
      assert Varint(v2) == [v2 % 128 + 128] + Varint(v3);
      assert Varint(v1) == [v1 % 128 + 128] + Varint(v2);
      b := [v % 128 + 128, v1 % 128 + 128, v2 % 128 + 128, v3 % 128 + 128, v4];
    }
  }

  method EncodeVarint64(v: nat) returns (b: Bytes)
    requires v < POW64
    ensures b == Varint(v)
  {
    b := [];
    var rest := v;
    while rest >= 128
      invariant b + Varint(rest) == Varint(v)
    {
      b := b + [rest % 128 + 128];
      rest := rest / 128;
    }
    b := b + [rest];
  }

  // What a varint is worth with seven more bits; the groups are disjoint bits, so or-ing them in is adding them.
  function WithGroup(value: nat, low: nat, shift: nat): nat {
    value + low * shift
  }

  // After p bytes that make value, the next of which counts shift, the rest of the varint is
  // what it is on the whole.
  ghost predicate Agrees(b: Bytes, p: nat, most: nat, value: nat, shift: nat)
    requires p <= |b| && p <= most
  {
    match ParseVarint(b[p..], most - p)
    case None => ParseVarint(b, most).None?
    case Some(q) => ParseVarint(b, most) == Some((WithGroup(value, q.0, shift), p + q.1))
  }

  lemma AgreesAtFirst(b: Bytes, most: nat)
    ensures Agrees(b, 0, most, 0, 1)
  {
    assert b[0..] == b;
  }

  lemma LastGroup(b: Bytes, p: nat, most: nat, value: nat, shift: nat)
    requires p < |b| && p < most && Agrees(b, p, most, value, shift) && b[p] < 128
    ensures ParseVarint(b, most) == Some((WithGroup(value, b[p], shift), p + 1))
  {
  }

  lemma {:induction false} NextGroup(b: Bytes, p: nat, most: nat, value: nat, shift: nat)
    requires p < |b| && p < most && Agrees(b, p, most, value, shift) && b[p] >= 128
    ensures Agrees(b, p + 1, most, WithGroup(value, b[p] - 128, shift), shift * 128)
  {
    assert b[p..][1..] == b[p + 1..];
    var q := ParseVarint(b[p + 1..], most - p - 1);
    if q.Some? {
      Distribute(b[p] - 128, q.value.0, shift);
    }
  }

  lemma NoLastGroup(b: Bytes, p: nat, most: nat, value: nat, shift: nat)
    requires p <= |b| && p <= most && Agrees(b, p, most, value, shift) && (p == |b| || p == most)
    ensures ParseVarint(b, most) == None
  {
  }

  /** Reads a varint of at most `groups` bytes into an integer of `modulus` values: bits beyond
      its width are lost, and dropping the excess of each group is dropping the excess of the sum. */
  method GetVarint(b: Bytes, groups: nat, modulus: nat) returns (r: Option<(nat, nat)>)
    requires modulus > 0
    ensures r == match ParseVarint(b, groups)
                 case None => None
                 case Some(p) => Some((p.0 % modulus, p.1))
  {
    var result: nat, p: nat, shift: nat := 0, 0, 1;
    AgreesAtFirst(b, groups);
    while p < groups && p < |b|
      invariant p <= groups && p <= |b| && Agrees(b, p, groups, result, shift)
    {
      var byte := b[p];
      if byte >= 128 {
        // The top bit says that another byte follows.
        NextGroup(b, p, groups, result, shift);
        result := WithGroup(result, byte - 128, shift);
        shift := shift * 128;
      } else {
        LastGroup(b, p, groups, result, shift);
        return Some((WithGroup(result, byte, shift) % modulus, p + 1));
      }
      p := p + 1;
    }
    NoLastGroup(b, p, groups, result, shift);
    return None;
  }

  lemma Distribute(low: nat, high: nat, shift: nat)
    ensures (low + 128 * high) * shift == low * shift + high * (shift * 128)
  {
  }

  // A byte string after its length.
  function Prefixed(b: Bytes): Bytes {
    Varint(|b|) + b
  }

  // ----- Concatenation -----

  lemma Assoc(a: Bytes, b: Bytes, c: Bytes)
    ensures a + (b + c) == (a + b) + c
  {
  }

  lemma Extend(a: Bytes, b: Bytes, c: Bytes, d: Bytes)
    ensures (a + (b + c)) + d == a + (b + (c + d))
  {
  }
}
