/** What a reader makes of a log whose writer stopped at any byte. */
module LogRecovery {
  import opened Primitives
  import opened Coding
  import opened LogFormat
  import opened LogReaders

  // The cursor has p bytes of the file behind it.
  predicate Stands(file: Bytes, c: Cursor, p: nat) {
    && c.In(file) && p + |c.buffer| == c.pos && c.buffer == file[p..c.pos]
    && p % BLOCK_SIZE + |c.buffer| <= BLOCK_SIZE
    && if c.eof then c.pos == |file| else c.pos % BLOCK_SIZE == 0
  }

  // From p on, the file holds these fragments, or as much of them as was written.
  predicate Holds(crc: Checksum, file: Bytes, p: nat, fs: seq<Fragment>) {
    && Fit(p, fs) && p <= |file| && file[p..] <= LayOut(crc, p, fs)
    && forall f :: f in fs ==> FULL <= f.kind <= LAST
  }

  lemma PrefixAfter(a: Bytes, z: Bytes, x: Bytes)
    requires a <= z + x && |z| <= |a|
    ensures a[..|z|] == z && a[|z|..] <= x
  {
  }

  lemma PrefixOfPrefix(b: Bytes, a: Bytes, x: Bytes, y: Bytes)
    requires b <= a <= x + y
    ensures b <= x || x <= b
  {
    assert b <= x + y;
  }

  // A trailer too short for a header holds no fragment.
  lemma {:induction false} SkipTrailer(crc: Checksum, file: Bytes, c: Cursor, p: nat, fs: seq<Fragment>)
    requires Stands(file, c, p) && Holds(crc, file, p, fs) && |c.buffer| < HEADER_SIZE && !c.eof
    ensures c.pos == Start(p) && Stands(file, c.Refill(file), c.pos) && Holds(crc, file, c.pos, fs)
  {
    TrailerEnd(p, |c.buffer|);
    RefillStands(file, c);
    HoldsAfterTrailer(crc, file, p, fs);
  }

  lemma RefillStands(file: Bytes, c: Cursor)
    requires c.In(file) && c.pos % BLOCK_SIZE == 0
    ensures Stands(file, c.Refill(file), c.pos)
  {
  }

  lemma {:induction false} HoldsAfterTrailer(crc: Checksum, file: Bytes, p: nat, fs: seq<Fragment>)
    requires Holds(crc, file, p, fs) && Start(p) <= |file|
    ensures Holds(crc, file, Start(p), fs)
  {
    if fs == [] {
      assert file[p..] == file[Start(p)..] == [];
    } else {
      LayOutAfterTrailer(crc, p, fs);
      PrefixAfter(file[p..], Zeros(Start(p) - p), LayOut(crc, Start(p), fs));
      assert file[p..][Start(p) - p..] == file[Start(p)..];
    }
  }

  lemma TrailerEnd(p: nat, n: nat)
    requires n < HEADER_SIZE && p % BLOCK_SIZE + n <= BLOCK_SIZE && (p + n) % BLOCK_SIZE == 0
    ensures Start(p) == p + n
  {
  }

  lemma {:induction false} LayOutAfterTrailer(crc: Checksum, p: nat, fs: seq<Fragment>)
    requires fs != [] && Fit(p, fs)
    ensures Start(Start(p)) == Start(p) && Fit(Start(p), fs)
    ensures LayOut(crc, p, fs) == Zeros(Start(p) - p) + LayOut(crc, Start(p), fs)
  {
    var rest := FragmentBytes(crc, fs[0]) + LayOut(crc, End(p, fs[0]), fs[1..]);
    assert Zeros(0) + rest == rest;
  }

  // The bytes of a fragment say what it is.
  lemma {:induction false} FragmentIsReadable(crc: Checksum, f: Fragment, b: Bytes)
    requires |f.payload| < BLOCK_SIZE && HEADER_SIZE <= |b| && (b <= FragmentBytes(crc, f) || FragmentBytes(crc, f) <= b)
    ensures PayloadLength(b) == |f.payload| && b[6] == f.kind
    ensures HEADER_SIZE + |f.payload| <= |b| ==>
      && b[HEADER_SIZE..HEADER_SIZE + |f.payload|] == f.payload
      && StoredChecksum(b) == crc(b[6..HEADER_SIZE + |f.payload|])
  {
    var all := FragmentBytes(crc, f);
    assert b[4] == all[4] && b[5] == all[5] && b[6] == all[6];
    if HEADER_SIZE + |f.payload| <= |b| {
      assert b[..|all|] == all;
      assert b[6..|all|] == [f.kind] + f.payload;
      ChecksumIsStored(crc([f.kind] + f.payload), b);
    }
  }

  lemma FourBytes(b: Bytes)
    requires |b| >= 4
    ensures DecodeFixed(b[..4]) == b[0] as nat + 256 * (b[1] as nat + 256 * (b[2] as nat + 256 * b[3] as nat))
  {
    var d0 := b[..4];
    var d1 := d0[1..];
    var d2 := d1[1..];
    var d3 := d2[1..];
    assert d3[1..] == [] && DecodeFixed(d3) == b[3] as nat;
    assert DecodeFixed(d2) == b[2] as nat + 256 * DecodeFixed(d3);
    assert DecodeFixed(d1) == b[1] as nat + 256 * DecodeFixed(d2);
  }

  lemma StoredIs(b: Bytes, masked: Word)
    requires |b| >= HEADER_SIZE && DecodeFixed(b[..4]) == masked
    ensures StoredChecksum(b) == Unmask(masked)
  {
    FourBytes(b);
  }

  lemma ChecksumIsStored(sum: Word, b: Bytes)
    requires |b| >= HEADER_SIZE && b[..4] == Fixed32(Mask(sum))
    ensures StoredChecksum(b) == sum
  {
    var masked := Mask(sum);
    UnmaskUndoesMask(sum);
    MaskedIsStored(b, masked);
    StoredIs(b, masked);
  }

  lemma MaskedIsStored(b: Bytes, masked: Word)
    requires |b| >= HEADER_SIZE && b[..4] == Fixed32(masked)
    ensures DecodeFixed(b[..4]) == masked
  {
    Pow256Widths();
    FixedRoundTrip(masked, 4);
  }

  // ----- One physical record -----

  // What a physical read gives where the next fragment is whole, and where it is cut off.
  predicate ReadsNext(crc: Checksum, file: Bytes, p: nat, fs: seq<Fragment>, r: PhysicalRead) {
    && r.drops == []
    && if fs != [] && End(p, fs[0]) <= |file| then
         && r.kind == fs[0].kind as nat != EOF && r.fragment == fs[0].payload
         && Stands(file, r.next, End(p, fs[0])) && Holds(crc, file, End(p, fs[0]), fs[1..])
       else
         r.kind == EOF
  }

  lemma {:induction false} TakesNext(crc: Checksum, check: bool, file: Bytes, c: Cursor, p: nat, fs: seq<Fragment>)
    requires Stands(file, c, p) && Holds(crc, file, p, fs) && |c.buffer| >= HEADER_SIZE
    ensures ReadsNext(crc, file, p, fs, TakeFragment(crc, check, c))
  {
    HeaderFits(p, |c.buffer|);
    assert file[p..] != [];
    var f := fs[0];
    HeaderIsWhole(crc, file, c, p, fs);
    FragmentIsReadable(crc, f, c.buffer);
    assert f in fs;
    if HEADER_SIZE + |f.payload| <= |c.buffer| {
      HoldsAfterFragment(crc, file, p, fs);
      StandsAfter(file, c, p, HEADER_SIZE + |f.payload|);
    }
  }

  lemma StandsAfter(file: Bytes, c: Cursor, p: nat, n: nat)
    requires Stands(file, c, p) && n <= |c.buffer|
    ensures Stands(file, c.(buffer := c.buffer[n..]), p + n)
  {
    assert c.buffer[n..] == file[p + n..c.pos];
  }

  // A buffer with a header in it ends with its block or with the file.
  lemma HeaderFits(p: nat, n: nat)
    requires HEADER_SIZE <= n && p % BLOCK_SIZE + n <= BLOCK_SIZE
    ensures Start(p) == p
    ensures (p + n) % BLOCK_SIZE == 0 ==> HEADER_SIZE + Available(p) == n
  {
  }

  lemma {:induction false} HeaderIsWhole(crc: Checksum, file: Bytes, c: Cursor, p: nat, fs: seq<Fragment>)
    requires Stands(file, c, p) && Holds(crc, file, p, fs) && fs != [] && Start(p) == p
    ensures c.buffer <= FragmentBytes(crc, fs[0]) || FragmentBytes(crc, fs[0]) <= c.buffer
  {
    var rest := FragmentBytes(crc, fs[0]) + LayOut(crc, End(p, fs[0]), fs[1..]);
    assert Zeros(0) + rest == rest;
    PrefixOfPrefix(c.buffer, file[p..], FragmentBytes(crc, fs[0]), LayOut(crc, End(p, fs[0]), fs[1..]));
  }

  lemma {:induction false} HoldsAfterFragment(crc: Checksum, file: Bytes, p: nat, fs: seq<Fragment>)
    requires Holds(crc, file, p, fs) && fs != [] && Start(p) == p && End(p, fs[0]) <= |file|
    ensures Holds(crc, file, End(p, fs[0]), fs[1..])
  {
    var rest := LayOut(crc, End(p, fs[0]), fs[1..]);
    assert Zeros(0) + (FragmentBytes(crc, fs[0]) + rest) == FragmentBytes(crc, fs[0]) + rest;
    PrefixAfter(file[p..], FragmentBytes(crc, fs[0]), rest);
    assert file[p..][End(p, fs[0]) - p..] == file[End(p, fs[0])..];
  }

  // With no header in the buffer and nothing more to fill it with, no fragment is whole.
  lemma {:induction false} EndReadsNext(crc: Checksum, file: Bytes, c: Cursor, p: nat, fs: seq<Fragment>)
    requires Stands(file, c, p) && Holds(crc, file, p, fs) && |c.buffer| < HEADER_SIZE && c.eof
    ensures ReadsNext(crc, file, p, fs, PhysicalRead(EOF, [], c.(buffer := []), []))
  {
  }

  lemma {:induction false} ReadsNextAfterTrailer(crc: Checksum, file: Bytes, p: nat, fs: seq<Fragment>, r: PhysicalRead)
    requires ReadsNext(crc, file, Start(p), fs, r)
    ensures ReadsNext(crc, file, p, fs, r)
  {
    assert Start(Start(p)) == Start(p);
  }

  lemma {:induction false} PhysicalReadsNext(crc: Checksum, check: bool, file: Bytes, c: Cursor, p: nat, fs: seq<Fragment>)
    requires Stands(file, c, p) && Holds(crc, file, p, fs)
    ensures ReadsNext(crc, file, p, fs, ReadPhysical(crc, check, file, c))
    decreases if |c.buffer| >= HEADER_SIZE then 0 else if c.eof then 1 else 2
  {
    if |c.buffer| >= HEADER_SIZE {
      TakesNext(crc, check, file, c, p, fs);
    } else if !c.eof {
      SkipTrailer(crc, file, c, p, fs);
      PhysicalReadsNext(crc, check, file, c.Refill(file), c.pos, fs);
      ReadsNextAfterTrailer(crc, file, p, fs, ReadPhysical(crc, check, file, c.Refill(file)));
    } else {
      EndReadsNext(crc, file, c, p, fs);
    }
  }

  // ----- Records -----

  // What a logical read gives of a record that is wholly in the file, and of one that is not.
  predicate ReadsRecord(crc: Checksum, file: Bytes, end: nat, more: seq<Fragment>, record: Bytes, r: LogicalRead) {
    && r.drops == []
    && if end <= |file| then
         r.record == Some(record) && Stands(file, r.next, end) && Holds(crc, file, end, more)
       else
         r.record.None?
  }

  // How a logical read l goes on from its first physical read r; rest is what it does after.
  predicate GoesOn(r: PhysicalRead, inFragment: bool, scratch: Bytes, l: LogicalRead, rest: LogicalRead) {
    if r.kind == EOF then l == LogicalRead(None, r.next, r.drops)
    else
      var a := Assemble(r.kind, r.fragment, inFragment, scratch);
      l == if a.done then LogicalRead(Some(a.scratch), r.next, r.drops + a.drops) else rest.After(r.drops + a.drops)
  }

  lemma {:induction false} LogicalReadsRecord(crc: Checksum, check: bool, file: Bytes, c: Cursor, p: nat,
                                              data: Bytes, begin: bool, scratch: Bytes, more: seq<Fragment>)
    requires Stands(file, c, p) && Holds(crc, file, p, Split(p, data, begin) + more)
    requires begin ==> scratch == []
    ensures ReadsRecord(crc, file, EndOfAll(p, Split(p, data, begin)), more, scratch + data,
                        ReadLogical(crc, check, file, c, !begin, scratch))
    decreases |data|, Available(p) == 0
  {
    var f := FirstFragment(p, data, begin);
    var r := ReadPhysical(crc, check, file, c);
    SplitOnce(p, data, begin, more);
    PhysicalReadsNext(crc, check, file, c, p, Split(p, data, begin) + more);
    var rest := LogicalGoesOn(crc, check, file, c, !begin, scratch);
    if End(p, f) <= |file| && |f.payload| < |data| {
      assert begin ==> scratch + f.payload == f.payload;
      LogicalReadsRecord(crc, check, file, r.next, End(p, f), data[|f.payload|..], false, scratch + f.payload, more);
    }
    FirstThenRest(crc, file, p, data, begin, scratch, more, r, ReadLogical(crc, check, file, c, !begin, scratch), rest);
  }

  lemma LogicalGoesOn(crc: Checksum, check: bool, file: Bytes, c: Cursor, inFragment: bool, scratch: Bytes)
    returns (rest: LogicalRead)
    requires c.In(file)
    ensures
      var r := ReadPhysical(crc, check, file, c);
      var a := Assemble(r.kind, r.fragment, inFragment, scratch);
      && GoesOn(r, inFragment, scratch, ReadLogical(crc, check, file, c, inFragment, scratch), rest)
      && (r.kind != EOF && !a.done ==> rest == ReadLogical(crc, check, file, r.next, a.inFragment, a.scratch))
  {
    var r := ReadPhysical(crc, check, file, c);
    var a := Assemble(r.kind, r.fragment, inFragment, scratch);
    rest := if r.kind == EOF || a.done then LogicalRead(None, c, [])
            else ReadLogical(crc, check, file, r.next, a.inFragment, a.scratch);
  }

  lemma SplitOnce(p: nat, data: Bytes, begin: bool, more: seq<Fragment>)
    ensures
      var f, fs := FirstFragment(p, data, begin), Split(p, data, begin) + more;
      && fs[0] == f && fs[1..] == SplitRest(p, data, begin) + more
      && (|f.payload| < |data| ==> SplitRest(p, data, begin) == Split(End(p, f), data[|f.payload|..], false))
      && (|f.payload| == |data| ==> fs[1..] == more && f.payload == data)
      && (Available(p) == |f.payload| == 0 ==> Available(End(p, f)) > 0)
      && EndOfAll(p, Split(p, data, begin)) == EndOfAll(End(p, f), SplitRest(p, data, begin))
  {
    FullBlockIsFollowed(p, FirstFragment(p, data, begin));
  }

  lemma {:induction false} FirstThenRest(crc: Checksum, file: Bytes, p: nat, data: Bytes, begin: bool, scratch: Bytes,
                                         more: seq<Fragment>, r: PhysicalRead, l: LogicalRead, rest: LogicalRead)
    requires ReadsNext(crc, file, p, Split(p, data, begin) + more, r) && GoesOn(r, !begin, scratch, l, rest)
    requires begin ==> scratch == []
    requires
      var f := FirstFragment(p, data, begin);
      End(p, f) <= |file| && |f.payload| < |data| ==>
        ReadsRecord(crc, file, EndOfAll(End(p, f), SplitRest(p, data, begin)), more, scratch + f.payload + data[|f.payload|..], rest)
    ensures ReadsRecord(crc, file, EndOfAll(p, Split(p, data, begin)), more, scratch + data, l)
  {
    SplitOnce(p, data, begin, more);
    var f := FirstFragment(p, data, begin);
    EndsAfter(End(p, f), SplitRest(p, data, begin));
    Rejoined(scratch, data, |f.payload|);
    Rejoined([], data, 0);
  }

  lemma Rejoined(scratch: Bytes, data: Bytes, n: nat)
    requires n <= |data|
    ensures scratch + data[..n] + data[n..] == scratch + data && [] + data == data
  {
  }

  lemma {:induction false} EndsAfter(p: nat, fs: seq<Fragment>)
    ensures p <= EndOfAll(p, fs)
    decreases |fs|
  {
    if fs != [] {
      EndsAfter(End(p, fs[0]), fs[1..]);
    }
  }

  // ----- The whole log -----

  // Reading finds the first k records, and no more, and reports nothing.
  predicate ReadsSome(r: (seq<Bytes>, seq<Drop>), p: nat, records: seq<Bytes>, k: nat, size: nat) {
    && k <= |records| && r == (records[..k], [])
    && EndOfAll(p, SplitAll(p, records[..k])) <= size
    && (k < |records| ==> size < EndOfAll(p, SplitAll(p, records[..k + 1])))
  }

  lemma {:induction false} ReadsWholeRecords(crc: Checksum, check: bool, file: Bytes, c: Cursor, p: nat, records: seq<Bytes>)
    returns (k: nat)
    requires Stands(file, c, p) && Holds(crc, file, p, SplitAll(p, records))
    ensures ReadsSome(ReadAll(crc, check, file, c), p, records, k, |file|)
    decreases |records|
  {
    var first := ReadLogical(crc, check, file, c, false, []);
    if records == [] {
      k := 0;
      PhysicalReadsNext(crc, check, file, c, p, []);
      var rest := LogicalGoesOn(crc, check, file, c, false, []);
      FirstRecordThenRest(p, records, 0, |file|, first, ReadAll(crc, check, file, c), ([], []));
    } else {
      var fs := Split(p, records[0], true);
      var q := EndOfAll(p, fs);
      LogicalReadsRecord(crc, check, file, c, p, records[0], true, [], SplitAll(q, records[1..]));
      assert [] + records[0] == records[0];
      var rest: (seq<Bytes>, seq<Drop>) := ([], []);
      if q <= |file| {
        k := ReadsWholeRecords(crc, check, file, first.next, q, records[1..]);
        rest := ReadAll(crc, check, file, first.next);
        FirstRecordThenRest(p, records, k, |file|, first, ReadAll(crc, check, file, c), rest);
        k := k + 1;
      } else {
        k := 0;
        FirstRecordThenRest(p, records, 0, |file|, first, ReadAll(crc, check, file, c), rest);
      }
    }
  }

  lemma {:induction false} FirstRecordThenRest(p: nat, records: seq<Bytes>, k: nat, size: nat, first: LogicalRead,
                                               all: (seq<Bytes>, seq<Drop>), rest: (seq<Bytes>, seq<Drop>))
    requires p <= size && first.drops == []
    requires all == if first.record.None? then ([], first.drops) else ([first.record.value] + rest.0, first.drops + rest.1)
    requires first.record.None? ==> k == 0
    requires first.record.None? && records != [] ==> size < EndOfAll(p, Split(p, records[0], true))
    requires first.record.Some? ==>
      && records != [] && first.record.value == records[0]
      && ReadsSome(rest, EndOfAll(p, Split(p, records[0], true)), records[1..], k, size)
    ensures ReadsSome(all, p, records, if first.record.None? then 0 else k + 1, size)
  {
    if records != [] {
      if first.record.Some? {
        EndOfPrefix(p, records, k + 1);
        assert all.0 == records[..k + 1] && all.1 == [];
        if k + 1 < |records| {
          EndOfPrefix(p, records, k + 2);
        }
      } else {
        EndOfPrefix(p, records, 1);
      }
    }
  }

  lemma {:induction false} EndOfPrefix(p: nat, records: seq<Bytes>, k: nat)
    requires 0 < k <= |records|
    ensures records[..k] == [records[0]] + records[1..][..k - 1]
    ensures
      var q := EndOfAll(p, Split(p, records[0], true));
      EndOfAll(p, SplitAll(p, records[..k])) == EndOfAll(q, SplitAll(q, records[1..][..k - 1]))
  {
    assert records[..k][0] == records[0] && records[..k][1..] == records[1..][..k - 1];
    SplitFirst(p, records[..k]);
  }

  lemma {:induction false} SplitFirst(p: nat, records: seq<Bytes>)
    requires records != []
    ensures
      var q := EndOfAll(p, Split(p, records[0], true));
      EndOfAll(p, SplitAll(p, records)) == EndOfAll(q, SplitAll(q, records[1..]))
  {
    var q := EndOfAll(p, Split(p, records[0], true));
    SplitAllFits(q, records[1..]);
    FitConcat(p, Split(p, records[0], true), SplitAll(q, records[1..]));
  }

  lemma {:induction false} SplitKinds(p: nat, data: Bytes, begin: bool)
    ensures forall f :: f in Split(p, data, begin) ==> FULL <= f.kind <= LAST
    decreases |data|, Available(p) == 0
  {
    var f := FirstFragment(p, data, begin);
    FullBlockIsFollowed(p, f);
    if |f.payload| < |data| {
      SplitKinds(End(p, f), data[|f.payload|..], false);
    }
  }

  lemma {:induction false} SplitAllKinds(p: nat, records: seq<Bytes>)
    ensures forall f :: f in SplitAll(p, records) ==> FULL <= f.kind <= LAST
    decreases |records|
  {
    if records != [] {
      SplitKinds(p, records[0], true);
      SplitAllKinds(EndOfAll(p, Split(p, records[0], true)), records[1..]);
    }
  }

  /** Whatever byte the writer stopped at, reading finds exactly the records that were wholly
      written, in order, and reports no corruption. */
  lemma {:induction false} CrashLosesOnlyTheTail(crc: Checksum, check: bool, records: seq<Bytes>, n: nat) returns (k: nat)
    requires n <= |LogOf(crc, records)|
    ensures k <= |records| && |LogOf(crc, records[..k])| <= n
    ensures k < |records| ==> n < |LogOf(crc, records[..k + 1])|
    ensures ReadAll(crc, check, LogOf(crc, records)[..n], FRESH) == (records[..k], [])
  {
    var file := LogOf(crc, records)[..n];
    SplitAllFits(0, records);
    SplitAllKinds(0, records);
    assert file[0..] == file;
    k := ReadsWholeRecords(crc, check, file, FRESH, 0, records);
    LogLength(crc, records[..k]);
    if k < |records| {
      LogLength(crc, records[..k + 1]);
    }
  }

  lemma {:induction false} LogLength(crc: Checksum, records: seq<Bytes>)
    ensures |LogOf(crc, records)| == EndOfAll(0, SplitAll(0, records))
  {
    SplitAllFits(0, records);
    LayOutLength(crc, 0, SplitAll(0, records));
  }

  /** Reading what was written gives it back. */
  lemma {:induction false} LogRoundTrip(crc: Checksum, check: bool, records: seq<Bytes>)
    ensures ReadAll(crc, check, LogOf(crc, records), FRESH) == (records, [])
  {
    var log := LogOf(crc, records);
    var k := CrashLosesOnlyTheTail(crc, check, records, |log|);
    assert log[..|log|] == log;
    if k < |records| {
      LogGrows(crc, 0, records, k + 1);
      LogLength(crc, records[..k + 1]);
      LogLength(crc, records);
      assert false;
    }
    assert records[..k] == records;
  }

  lemma {:induction false} LogGrows(crc: Checksum, p: nat, records: seq<Bytes>, k: nat)
    requires k <= |records|
    ensures EndOfAll(p, SplitAll(p, records[..k])) <= EndOfAll(p, SplitAll(p, records))
    decreases |records|
  {
    if k == 0 {
      EndsAfter(p, SplitAll(p, records));
    } else {
      EndOfPrefix(p, records, k);
      SplitFirst(p, records);
      LogGrows(crc, EndOfAll(p, Split(p, records[0], true)), records[1..], k - 1);
    }
  }
}
