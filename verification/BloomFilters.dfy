/** Bloom filters: sets of keys with no false negatives. */
module BloomFilters {
  import opened Primitives
  import opened Coding

  // The hash of a key; which one is not fixed here.
  type Hash = Bytes -> Word

  // ----- Bits -----

  // b & (1 << i)
  predicate HasBit(b: nat, i: nat) {
    if i == 0 then b % 2 == 1 else HasBit(b / 2, i - 1)
  }

  // b | (1 << i)
  function WithBit(b: nat, i: nat): nat {
    if i == 0 then (if b % 2 == 1 then b else b + 1) else 2 * WithBit(b / 2, i - 1) + b % 2
  }

  lemma {:induction false} BitsAfter(b: nat, i: nat, j: nat)
    ensures HasBit(WithBit(b, i), j) <==> i == j || HasBit(b, j)
  {
    if i > 0 && j > 0 {
      BitsAfter(b / 2, i - 1, j - 1);
    }
  }

  lemma WithBitIsByte(b: Byte, i: nat)
    requires i < 8
    ensures WithBit(b, i) < 256
  {
    WithBitBelow(b, i, 8);
  }

  function Pow2(n: nat): nat {
    if n == 0 then 1 else 2 * Pow2(n - 1)
  }

  lemma {:induction false} WithBitBelow(b: nat, i: nat, n: nat)
    requires b < Pow2(n) && i < n
    ensures WithBit(b, i) < Pow2(n)
  {
    if i > 0 {
      WithBitBelow(b / 2, i - 1, n - 1);
    }
  }

  predicate BitAt(bitArray: Bytes, pos: nat)
    requires pos < 8 * |bitArray|
  {
    HasBit(bitArray[pos / 8], pos % 8)
  }

  // ----- Probes -----

  // Rotates right by 17 bits.
  function Delta(h: Word): Word {
    h / 0x2_0000 + h % 0x2_0000 * 0x8000
  }

  // Double hashing in 32 bits: the j-th hash of a key.
  function Probe(h: Word, j: nat): Word {
    (h + j * Delta(h)) % POW32
  }

  lemma NextProbe(h: Word, j: nat)
    ensures (Probe(h, j) + Delta(h)) % POW32 == Probe(h, j + 1)
  {
    assert h + (j + 1) * Delta(h) == (h + j * Delta(h)) + Delta(h);
    AddModulo(h + j * Delta(h), Delta(h));
  }

  lemma AddModulo(a: nat, b: nat)
    ensures (a % POW32 + b) % POW32 == (a + b) % POW32
  {
  }

  // The bits of the first n probes are all set.
  predicate Probed(bitArray: Bytes, h: Word, n: nat)
    requires bitArray != []
  {
    forall j :: 0 <= j < n ==> BitAt(bitArray, Probe(h, j) % (8 * |bitArray|))
  }

  // What a filter says of a key: its bits, then the number of probes.
  predicate MayMatch(hash: Hash, key: Bytes, filter: Bytes) {
    && |filter| >= 2
    && (filter[|filter| - 1] > 30 || Probed(filter[..|filter| - 1], hash(key), filter[|filter| - 1]))
  }

  // ----- The policy -----

  class BloomFilterPolicy {
    const hash: Hash
    const bitsPerKey: nat
    const k: Byte  // number of probes

    constructor (hash: Hash, bitsPerKey: nat, k: Byte)
      requires 1 <= k <= 30
      ensures this.hash == hash && this.bitsPerKey == bitsPerKey && this.k == k
    {
      this.hash, this.bitsPerKey, this.k := hash, bitsPerKey, k;
    }

    /** Appends a filter that every one of the keys may match. */
    method CreateFilter(keys: seq<Bytes>, dst: Bytes) returns (result: Bytes)
      requires k <= 30
      ensures dst <= result && |result| - |dst| >= 2
      ensures forall key :: key in keys ==> MayMatch(hash, key, result[|dst|..])
    {
      var bits := |keys| * bitsPerKey;
      // For small n, enforce a minimum bloom filter length.
      if bits < 64 {
        bits := 64;
      }
      var bytes := (bits + 7) / 8;
      bits := bytes * 8;
      var bitArray := new Byte[bytes](_ => 0);
      for i := 0 to |keys|
        invariant fresh(bitArray) && forall m :: 0 <= m < i ==> Probed(bitArray[..], hash(keys[m]), k)
      {
        ghost var before := bitArray[..];
        AddKey(bitArray, keys[i]);
        forall m | 0 <= m < i ensures Probed(bitArray[..], hash(keys[m]), k) {
          KeepsProbed(before, bitArray[..], hash(keys[m]), k);
        }
      }
      result := dst + bitArray[..] + [k];
      assert result[|dst|..] == bitArray[..] + [k] && (bitArray[..] + [k])[..bytes] == bitArray[..];
    }

    // Sets the bits of a key.
    method AddKey(bitArray: array<Byte>, key: Bytes)
      requires bitArray.Length > 0
      modifies bitArray
      ensures Probed(bitArray[..], hash(key), k) && Keeps(old(bitArray[..]), bitArray[..])
    {
      var bits := bitArray.Length * 8;
      var h := hash(key);
      ghost var h0 := h;
      var delta := Delta(h);
      for j := 0 to k
        invariant h == Probe(h0, j) && Probed(bitArray[..], h0, j)
        invariant Keeps(old(bitArray[..]), bitArray[..])
      {
        var bitpos := h % bits;
        WithBitIsByte(bitArray[bitpos / 8], bitpos % 8);
        ghost var was := bitArray[..];
        bitArray[bitpos / 8] := WithBit(bitArray[bitpos / 8], bitpos % 8);
        OneBitMore(was, bitArray[..], bitpos);
        KeepsProbed(was, bitArray[..], h0, j);
        NextProbe(h0, j);
        h := (h + delta) % POW32;
      }
    }

    method KeyMayMatch(key: Bytes, filter: Bytes) returns (r: bool)
      ensures r == MayMatch(hash, key, filter)
    {
      if |filter| < 2 {
        return false;
      }
      var bitArray := filter[..|filter| - 1];
      var bits := (|filter| - 1) * 8;
      var probes := filter[|filter| - 1];
      if probes > 30 {
        // Reserved for potentially new encodings; consider it a match.
        return true;
      }
      var h := hash(key);
      var delta := Delta(h);
      for j := 0 to probes
        invariant h == Probe(hash(key), j) && Probed(bitArray, hash(key), j)
      {
        var bitpos := h % bits;
        if !HasBit(filter[bitpos / 8], bitpos % 8) {
          assert !BitAt(bitArray, Probe(hash(key), j) % (8 * |bitArray|));
          return false;
        }
        NextProbe(hash(key), j);
        h := (h + delta) % POW32;
      }
      return true;
    }
  }

  // Every bit that was set still is.
  ghost predicate Keeps(a: Bytes, b: Bytes) {
    |a| == |b| && forall pos :: 0 <= pos < 8 * |a| && BitAt(a, pos) ==> BitAt(b, pos)
  }

  lemma OneBitMore(a: Bytes, b: Bytes, pos: nat)
    requires pos < 8 * |a| && WithBit(a[pos / 8], pos % 8) < 256
    requires b == a[pos / 8 := WithBit(a[pos / 8], pos % 8)]
    ensures Keeps(a, b) && BitAt(b, pos)
  {
    BitsAfter(a[pos / 8], pos % 8, pos % 8);
    forall p | 0 <= p < 8 * |a| && BitAt(a, p) ensures BitAt(b, p) {
      BitsAfter(a[pos / 8], pos % 8, p % 8);
    }
  }

  lemma KeepsProbed(a: Bytes, b: Bytes, h: Word, n: nat)
    requires a != [] && Keeps(a, b) && Probed(a, h, n)
    ensures Probed(b, h, n)
  {
  }
}
