/** Appending records to the log. */
module LogWriters {
  import opened Primitives
  import opened Coding
  import opened LogFormat

  class Writer {
    var dest: Bytes  // the file
    var blockOffset: nat
    const crc: Checksum

    ghost predicate Valid()
      reads this
    {
      blockOffset <= BLOCK_SIZE && blockOffset % BLOCK_SIZE == |dest| % BLOCK_SIZE
    }

    constructor (crc: Checksum)
      ensures Valid() && dest == [] && this.crc == crc
    {
      dest, blockOffset, this.crc := [], 0, crc;
    }

    // What is left of a record is all that the file lacks.
    ghost predicate Lacks(target: Bytes, left: Bytes, begin: bool, more: bool)
      reads this
    {
      Valid() && target == if more then Extended(crc, dest, Split(|dest|, left, begin)) else dest
    }

    /** Cuts the record into fragments and appends them. */
    method AddRecord(slice: Bytes)
      requires Valid()
      modifies this
      ensures Valid()
      ensures dest == old(dest) + LayOut(crc, |old(dest)|, Split(|old(dest)|, slice, true))
    {
      ghost var target := Extended(crc, dest, Split(|dest|, slice, true));
      var left := slice;
      var begin, more := true, true;
      while more
        invariant Lacks(target, left, begin, more)
        decreases more, |left|, Available(|dest|) == 0
      {
        left, more := AddNext(left, begin, target);
        begin := false;
      }
    }

    // Appends the next fragment of a record.
    method AddNext(left: Bytes, begin: bool, ghost target: Bytes) returns (rest: Bytes, more: bool)
      requires Lacks(target, left, begin, true)
      modifies this
      ensures Lacks(target, rest, false, more)
      ensures more ==> |rest| < |left| || (|rest| == |left| && old(Available(|dest|)) == 0 && Available(|dest|) > 0)
    {
      LacksOneFewer(crc, dest, left, begin);
      SwitchBlock();
      var avail := BLOCK_SIZE - blockOffset - HEADER_SIZE;
      var n := if |left| < avail then |left| else avail;
      var end := |left| == n;
      var kind := if begin && end then FULL else if begin then FIRST else if end then LAST else MIDDLE;
      EmitPhysicalRecord(kind, left[..n]);
      rest, more := left[n..], !end;
    }

    // Fills the trailer of a block with no room for a header.
    method SwitchBlock()
      requires Valid()
      modifies this
      ensures Valid() && blockOffset + HEADER_SIZE <= BLOCK_SIZE
      ensures dest == old(dest) + Zeros(Start(|old(dest)|) - |old(dest)|)
      ensures blockOffset == |dest| % BLOCK_SIZE && BLOCK_SIZE - blockOffset - HEADER_SIZE == Available(|old(dest)|)
    {
      var leftover := BLOCK_SIZE - blockOffset;
      if leftover < HEADER_SIZE {
        if leftover > 0 {
          dest := dest + Zeros(leftover);
        }
        blockOffset := 0;
      }
    }

    method EmitPhysicalRecord(kind: Byte, payload: Bytes)
      requires blockOffset + HEADER_SIZE + |payload| <= BLOCK_SIZE && blockOffset == |dest| % BLOCK_SIZE
      modifies this
      ensures Valid() && dest == old(dest) + FragmentBytes(crc, Fragment(kind, payload))
    {
      var n := |payload|;
      var header := Fixed32(Mask(crc([kind] + payload))) + [n % 256, n / 256, kind];
      dest := dest + header;
      dest := dest + payload;
      blockOffset := blockOffset + HEADER_SIZE + n;
    }
  }

  // The file with some fragments added.
  function Extended(crc: Checksum, dest: Bytes, fs: seq<Fragment>): Bytes
    requires Fit(|dest|, fs)
  {
    dest + LayOut(crc, |dest|, fs)
  }

  // The file with the next fragment of a record.
  function WithNext(crc: Checksum, dest: Bytes, left: Bytes, begin: bool): Bytes {
    dest + Zeros(Start(|dest|) - |dest|) + FragmentBytes(crc, FirstFragment(|dest|, left, begin))
  }

  lemma {:induction false} LacksOneFewer(crc: Checksum, dest: Bytes, left: Bytes, begin: bool)
    ensures
      var next := WithNext(crc, dest, left, begin);
      var f := FirstFragment(|dest|, left, begin);
      && (Extended(crc, dest, Split(|dest|, left, begin))
            == if |f.payload| < |left| then Extended(crc, next, Split(|next|, left[|f.payload|..], false)) else next)
      && (Available(|dest|) == |f.payload| == 0 ==> Available(|next|) > 0)
  {
    var f := FirstFragment(|dest|, left, begin);
    FullBlockIsFollowed(|dest|, f);
    ExtendedByOne(crc, dest, f, SplitRest(|dest|, left, begin));
    if |f.payload| == |left| {
      ExtendedByNone(crc, WithNext(crc, dest, left, begin));
    }
  }

  lemma ExtendedByNone(crc: Checksum, dest: Bytes)
    ensures Extended(crc, dest, []) == dest
  {
  }

  lemma {:induction false} ExtendedByOne(crc: Checksum, dest: Bytes, f: Fragment, rest: seq<Fragment>)
    requires |f.payload| <= Available(|dest|) && Fit(End(|dest|, f), rest)
    ensures
      var next := dest + Zeros(Start(|dest|) - |dest|) + FragmentBytes(crc, f);
      && Fit(|dest|, [f] + rest) && |next| == End(|dest|, f)
      && Extended(crc, dest, [f] + rest) == Extended(crc, next, rest)
  {
    assert ([f] + rest)[1..] == rest;
    Regroup(dest, Zeros(Start(|dest|) - |dest|), FragmentBytes(crc, f), LayOut(crc, End(|dest|, f), rest));
  }

  /** The file after any records have been added, in order. */
  method AddAll(records: seq<Bytes>, crc: Checksum) returns (w: Writer)
    ensures fresh(w) && w.dest == LogOf(crc, records)
  {
    w := new Writer(crc);
    SplitAllFits(0, records);
    for i := 0 to |records|
      invariant fresh(w) && w.Valid() && w.crc == crc
      invariant Fit(|w.dest|, SplitAll(|w.dest|, records[i..]))
      invariant Extended(crc, w.dest, SplitAll(|w.dest|, records[i..])) == LogOf(crc, records)
    {
      ExtendedByRecord(crc, w.dest, records, i);
      w.AddRecord(records[i]);
    }
  }

  lemma {:induction false} ExtendedByRecord(crc: Checksum, dest: Bytes, records: seq<Bytes>, i: nat)
    requires i < |records|
    ensures
      var next := Extended(crc, dest, Split(|dest|, records[i], true));
      && Fit(|dest|, SplitAll(|dest|, records[i..])) && Fit(|next|, SplitAll(|next|, records[i + 1..]))
      && Extended(crc, dest, SplitAll(|dest|, records[i..])) == Extended(crc, next, SplitAll(|next|, records[i + 1..]))
  {
    var fs := Split(|dest|, records[i], true);
    var q := EndOfAll(|dest|, fs);
    LayOutLength(crc, |dest|, fs);
    assert records[i..][1..] == records[i + 1..];
    SplitAllFits(|dest|, records[i..]);
    SplitAllFits(q, records[i + 1..]);
    ExtendedByAll(crc, dest, fs, SplitAll(q, records[i + 1..]));
  }

  lemma {:induction false} ExtendedByAll(crc: Checksum, dest: Bytes, fs: seq<Fragment>, gs: seq<Fragment>)
    requires Fit(|dest|, fs) && Fit(EndOfAll(|dest|, fs), gs) && Fit(|dest|, fs + gs)
    ensures |Extended(crc, dest, fs)| == EndOfAll(|dest|, fs)
    ensures Extended(crc, dest, fs + gs) == Extended(crc, Extended(crc, dest, fs), gs)
  {
    LayOutLength(crc, |dest|, fs);
    LayOutConcat(crc, |dest|, fs, gs);
    Assoc(dest, LayOut(crc, |dest|, fs), LayOut(crc, EndOfAll(|dest|, fs), gs));
  }
}
