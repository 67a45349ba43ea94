/** The write-ahead log's format: records cut into checksummed fragments that never cross a
    block boundary. */
module LogFormat {
  import opened Primitives
  import opened Coding

  const BLOCK_SIZE: nat := 32768
  const HEADER_SIZE: nat := 7

  const ZERO: Byte := 0
  const FULL: Byte := 1
  const FIRST: Byte := 2
  const MIDDLE: Byte := 3
  const LAST: Byte := 4

  // ----- Checksums -----

  // The checksum of some bytes; which one is not fixed here.
  type Checksum = Bytes -> Word

  const MASK_DELTA: nat := 0xa282ead8

  // Rotates right by 15 bits and adds a constant.
  function Mask(crc: Word): Word {
    (crc / 0x8000 + crc % 0x8000 * 0x2_0000 + MASK_DELTA) % POW32
  }

  function Unmask(masked: Word): Word {
    var rot := (masked + POW32 - MASK_DELTA) % POW32;
    rot / 0x2_0000 + rot % 0x2_0000 * 0x8000
  }

  lemma HalvesSwap(high: nat, low: nat)
    requires low < 0x8000 && high < 0x2_0000
    ensures
      var rot := high + low * 0x2_0000;
      rot < POW32 && rot / 0x2_0000 == low && rot % 0x2_0000 == high
  {
  }

  lemma SubtractUndoesAdd(rot: nat)
    requires rot < POW32
    ensures ((rot + MASK_DELTA) % POW32 + POW32 - MASK_DELTA) % POW32 == rot
  {
    if rot + MASK_DELTA < POW32 {
      assert (rot + MASK_DELTA) % POW32 == rot + MASK_DELTA;
    } else {
      assert (rot + MASK_DELTA) % POW32 == rot + MASK_DELTA - POW32;
    }
  }

  lemma UnmaskUndoesMask(crc: Word)
    ensures Unmask(Mask(crc)) == crc
  {
    var high, low := crc / 0x8000, crc % 0x8000;
    assert crc == high * 0x8000 + low;
    HalvesSwap(high, low);
    SubtractUndoesAdd(high + low * 0x2_0000);
  }

  // ----- Fragments -----

  datatype Fragment = Fragment(kind: Byte, payload: Bytes)

  function FragmentBytes(crc: Checksum, f: Fragment): (b: Bytes)
    requires |f.payload| < BLOCK_SIZE
    ensures |b| == HEADER_SIZE + |f.payload|
  {
    Fixed32(Mask(crc([f.kind] + f.payload))) + [|f.payload| % 256, |f.payload| / 256, f.kind] + f.payload
  }

  // Where the header of the next fragment goes when the log is p bytes long: a block too full
  // for a header is padded.
  function Start(p: nat): (s: nat)
    ensures p <= s < p + HEADER_SIZE && s % BLOCK_SIZE + HEADER_SIZE <= BLOCK_SIZE
    ensures s == p || s % BLOCK_SIZE == 0
  {
    var leftover := BLOCK_SIZE - p % BLOCK_SIZE;
    if leftover < HEADER_SIZE then p + leftover else p
  }

  function Available(p: nat): nat {
    BLOCK_SIZE - Start(p) % BLOCK_SIZE - HEADER_SIZE
  }

  function End(p: nat, f: Fragment): nat {
    Start(p) + HEADER_SIZE + |f.payload|
  }

  // Each fragment, laid out from p on, stays inside one block.
  predicate Fit(p: nat, fs: seq<Fragment>)
    decreases |fs|
  {
    fs == [] || (|fs[0].payload| <= Available(p) && Fit(End(p, fs[0]), fs[1..]))
  }

  function LayOut(crc: Checksum, p: nat, fs: seq<Fragment>): Bytes
    requires Fit(p, fs)
    decreases |fs|
  {
    if fs == [] then []
    else Zeros(Start(p) - p) + (FragmentBytes(crc, fs[0]) + LayOut(crc, End(p, fs[0]), fs[1..]))
  }

  function Zeros(n: nat): Bytes {
    seq(n, _ => 0)
  }

  function EndOfAll(p: nat, fs: seq<Fragment>): nat
    decreases |fs|
  {
    if fs == [] then p else EndOfAll(End(p, fs[0]), fs[1..])
  }

  lemma {:induction false} LayOutLength(crc: Checksum, p: nat, fs: seq<Fragment>)
    requires Fit(p, fs)
    ensures p + |LayOut(crc, p, fs)| == EndOfAll(p, fs)
    decreases |fs|
  {
    if fs != [] {
      LayOutLength(crc, End(p, fs[0]), fs[1..]);
    }
  }

  lemma {:induction false} FitConcat(p: nat, fs: seq<Fragment>, gs: seq<Fragment>)
    requires Fit(p, fs) && Fit(EndOfAll(p, fs), gs)
    ensures Fit(p, fs + gs)
    ensures EndOfAll(p, fs + gs) == EndOfAll(EndOfAll(p, fs), gs)
    decreases |fs|
  {
    if fs == [] {
      assert fs + gs == gs;
    } else {
      FitConcat(End(p, fs[0]), fs[1..], gs);
      assert (fs + gs)[1..] == fs[1..] + gs;
    }
  }

  lemma {:induction false} LayOutConcat(crc: Checksum, p: nat, fs: seq<Fragment>, gs: seq<Fragment>)
    requires Fit(p, fs) && Fit(EndOfAll(p, fs), gs) && Fit(p, fs + gs)
    ensures LayOut(crc, p, fs + gs) == LayOut(crc, p, fs) + LayOut(crc, EndOfAll(p, fs), gs)
    decreases |fs|
  {
    var last := LayOut(crc, EndOfAll(p, fs), gs);
    if fs == [] {
      assert fs + gs == gs;
      assert [] + last == last;
    } else {
      assert (fs + gs)[1..] == fs[1..] + gs;
      LayOutConcat(crc, End(p, fs[0]), fs[1..], gs);
      Regroup(Zeros(Start(p) - p), FragmentBytes(crc, fs[0]), LayOut(crc, End(p, fs[0]), fs[1..]), last);
    }
  }

  lemma Regroup(a: Bytes, b: Bytes, c: Bytes, d: Bytes)
    ensures a + (b + (c + d)) == (a + (b + c)) + d == ((a + b) + c) + d
  {
  }

  // ----- Records -----

  function KindOf(begin: bool, end: bool): Byte {
    if begin && end then FULL else if begin then FIRST else if end then LAST else MIDDLE
  }

  // The first fragment of a record, or of what is left of it, when the log is p bytes long.
  function FirstFragment(p: nat, data: Bytes, begin: bool): (f: Fragment)
    ensures |f.payload| <= Available(p) && |f.payload| <= |data|
  {
    var n := if |data| < Available(p) then |data| else Available(p);
    Fragment(KindOf(begin, n == |data|), data[..n])
  }

  function Split(p: nat, data: Bytes, begin: bool): (fs: seq<Fragment>)
    ensures fs != [] && Fit(p, fs)
    decreases |data|, Available(p) == 0, 1
  {
    [FirstFragment(p, data, begin)] + SplitRest(p, data, begin)
  }

  function SplitRest(p: nat, data: Bytes, begin: bool): (fs: seq<Fragment>)
    ensures Fit(End(p, FirstFragment(p, data, begin)), fs)
    decreases |data|, Available(p) == 0, 0
  {
    var f := FirstFragment(p, data, begin);
    if |f.payload| == |data| then []
    else
      FullBlockIsFollowed(p, f);
      Split(End(p, f), data[|f.payload|..], false)
  }

  lemma FullBlockIsFollowed(p: nat, f: Fragment)
    ensures Available(p) == |f.payload| == 0 ==> Available(End(p, f)) > 0
  {
  }

  function SplitAll(p: nat, records: seq<Bytes>): (fs: seq<Fragment>)
    decreases |records|
  {
    if records == [] then []
    else
      var first := Split(p, records[0], true);
      first + SplitAll(EndOfAll(p, first), records[1..])
  }

  lemma {:induction false} SplitAllFits(p: nat, records: seq<Bytes>)
    ensures Fit(p, SplitAll(p, records))
    decreases |records|
  {
    if records != [] {
      var first := Split(p, records[0], true);
      SplitAllFits(EndOfAll(p, first), records[1..]);
      FitConcat(p, first, SplitAll(EndOfAll(p, first), records[1..]));
    }
  }

  // The log that holds the given records.
  function LogOf(crc: Checksum, records: seq<Bytes>): Bytes {
    SplitAllFits(0, records);
    LayOut(crc, 0, SplitAll(0, records))
  }
}
