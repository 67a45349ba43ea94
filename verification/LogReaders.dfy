/** Reading records back from the log. */
module LogReaders {
  import opened Primitives
  import opened Coding
  import opened LogFormat

  // What a physical read can return beside the kind in a header.
  const EOF: nat := 5
  const BAD_RECORD: nat := 6

  datatype Drop = Drop(bytes: nat, reason: string)

  /** Where a reader is: what it has buffered, whether its last read was short, and how much of
      the file it has read. */
  datatype Cursor = Cursor(buffer: Bytes, eof: bool, pos: nat) {
    predicate In(file: Bytes) {
      pos <= |file|
    }

    function Remaining(file: Bytes): nat
      requires In(file)
    {
      |file| - pos + |buffer|
    }

    function Refill(file: Bytes): (c: Cursor)
      requires In(file)
      ensures c.In(file) && (c.eof || |c.buffer| == BLOCK_SIZE) && c.Remaining(file) <= Remaining(file)
    {
      var n := if |file| - pos < BLOCK_SIZE then |file| - pos else BLOCK_SIZE;
      Cursor(file[pos..pos + n], n < BLOCK_SIZE, pos + n)
    }
  }

  const FRESH := Cursor([], false, 0)

  // ----- One physical record -----

  datatype PhysicalRead = PhysicalRead(kind: nat, fragment: Bytes, next: Cursor, drops: seq<Drop>)

  function ReadPhysical(crc: Checksum, check: bool, file: Bytes, c: Cursor): (r: PhysicalRead)
    requires c.In(file)
    ensures r.next.In(file) && (r.kind == EOF || r.next.Remaining(file) < c.Remaining(file))
    decreases if |c.buffer| >= HEADER_SIZE then 0 else if c.eof then 1 else 2
  {
    if |c.buffer| >= HEADER_SIZE then TakeFragment(crc, check, c)
    else if !c.eof then ReadPhysical(crc, check, file, c.Refill(file))
    else PhysicalRead(EOF, [], c.(buffer := []), [])
  }

  function PayloadLength(buffer: Bytes): nat
    requires |buffer| >= HEADER_SIZE
  {
    var low: nat, high: nat := buffer[4], buffer[5];
    low + 256 * high
  }

  function StoredChecksum(buffer: Bytes): Word
    requires |buffer| >= HEADER_SIZE
  {
    var b0: nat, b1: nat, b2: nat, b3: nat := buffer[0], buffer[1], buffer[2], buffer[3];
    Unmask(b0 + 256 * (b1 + 256 * (b2 + 256 * b3)))
  }

  function TakeFragment(crc: Checksum, check: bool, c: Cursor): PhysicalRead
    requires |c.buffer| >= HEADER_SIZE
  {
    var n := PayloadLength(c.buffer);
    var dropped := c.(buffer := []);
    if HEADER_SIZE + n > |c.buffer| then
      if c.eof then PhysicalRead(EOF, [], dropped, [])
      else PhysicalRead(BAD_RECORD, [], dropped, [Drop(|c.buffer|, "bad record length")])
    else if c.buffer[6] == ZERO && n == 0 then PhysicalRead(BAD_RECORD, [], dropped, [])
    else if check && crc(c.buffer[6..HEADER_SIZE + n]) != StoredChecksum(c.buffer) then
      PhysicalRead(BAD_RECORD, [], dropped, [Drop(|c.buffer|, "checksum mismatch")])
    else
      PhysicalRead(TypeOf(c.buffer[6]), c.buffer[HEADER_SIZE..HEADER_SIZE + n], c.(buffer := c.buffer[HEADER_SIZE + n..]), [])
  }

  // The type byte is a signed char.
  function TypeOf(b: Byte): nat {
    if b < 128 then b else POW32 - 256 + b
  }

  // ----- One logical record -----

  datatype LogicalRead = LogicalRead(record: Option<Bytes>, next: Cursor, drops: seq<Drop>) {
    function After(earlier: seq<Drop>): LogicalRead {
      this.(drops := earlier + drops)
    }
  }

  function ReadLogical(crc: Checksum, check: bool, file: Bytes, c: Cursor, inFragment: bool, scratch: Bytes): (r: LogicalRead)
    requires c.In(file)
    ensures r.next.In(file) && (r.record.Some? ==> r.next.Remaining(file) < c.Remaining(file))
    decreases c.Remaining(file)
  {
    var p := ReadPhysical(crc, check, file, c);
    if p.kind == EOF then LogicalRead(None, p.next, p.drops)
    else
      var a := Assemble(p.kind, p.fragment, inFragment, scratch);
      if a.done then LogicalRead(Some(a.scratch), p.next, p.drops + a.drops)
      else ReadLogical(crc, check, file, p.next, a.inFragment, a.scratch).After(p.drops + a.drops)
  }

  // What has been put together after a fragment.
  datatype Assembly = Assembly(done: bool, inFragment: bool, scratch: Bytes, drops: seq<Drop>)

  function Assemble(kind: nat, fragment: Bytes, inFragment: bool, scratch: Bytes): Assembly
  {
    if kind == EOF then Assembly(false, false, [], [])
    else if kind == FULL then
      Assembly(true, false, fragment,
               if inFragment && scratch != [] then [Drop(|scratch|, "partial record without end(1)")] else [])
    else if kind == FIRST then
      Assembly(false, true, fragment,
               if inFragment && scratch != [] then [Drop(|scratch|, "partial record without end(2)")] else [])
    else if kind == MIDDLE then
      if inFragment then Assembly(false, true, scratch + fragment, [])
      else Assembly(false, false, scratch, [Drop(|fragment|, "missing start of fragmented record(1)")])
    else if kind == LAST then
      if inFragment then Assembly(true, false, scratch + fragment, [])
      else Assembly(false, false, scratch, [Drop(|fragment|, "missing start of fragmented record(2)")])
    else if kind == BAD_RECORD then
      if inFragment then Assembly(false, false, [], [Drop(|scratch|, "error in middle of record")])
      else Assembly(false, false, scratch, [])
    else
      Assembly(false, false, [], [Drop(|fragment| + if inFragment then |scratch| else 0, "unknown record type")])
  }

  // ----- A file from end to end -----

  function ReadAll(crc: Checksum, check: bool, file: Bytes, c: Cursor): (r: (seq<Bytes>, seq<Drop>))
    requires c.In(file)
    decreases c.Remaining(file)
  {
    var first := ReadLogical(crc, check, file, c, false, []);
    if first.record.None? then ([], first.drops)
    else
      var rest := ReadAll(crc, check, file, first.next);
      ([first.record.value] + rest.0, first.drops + rest.1)
  }

  // ----- The reader -----

  datatype Progress = Eof | Complete | More

  class Reader {
    const crc: Checksum
    const file: Bytes
    const checksum: bool
    var buffer: Bytes
    var eof: bool
    var pos: nat  // how much of the file has been read
    var drops: seq<Drop>  // reported

    predicate Valid()
      reads this
    {
      At().In(file)
    }

    function At(): Cursor
      reads this
    {
      Cursor(buffer, eof, pos)
    }

    constructor (crc: Checksum, file: Bytes, checksum: bool)
      ensures Valid() && At() == FRESH && drops == []
      ensures this.crc == crc && this.file == file && this.checksum == checksum
    {
      this.crc, this.file, this.checksum := crc, file, checksum;
      buffer, eof, pos, drops := [], false, 0, [];
    }

    method ReadPhysicalRecord() returns (kind: nat, fragment: Bytes)
      requires Valid()
      modifies this
      ensures Valid()
      ensures
        var r := old(ReadPhysical(crc, checksum, file, At()));
        kind == r.kind && fragment == r.fragment && At() == r.next && drops == old(drops) + r.drops
    {
      var full := FillBuffer();
      if !full {
        // What is left is less than a header.  That is what a crash during a write leaves,
        // and is reported as nothing but the end.
        buffer := [];
        return EOF, [];
      }
      kind, fragment := TakeFragmentFromBuffer();
    }

    // Reads another block unless there is a header in the buffer.
    method FillBuffer() returns (full: bool)
      requires Valid()
      modifies this`buffer, this`eof, this`pos
      ensures Valid() && (full <==> |buffer| >= HEADER_SIZE) && (!full ==> eof)
      ensures ReadPhysical(crc, checksum, file, At()) == old(ReadPhysical(crc, checksum, file, At()))
    {
      ghost var r := ReadPhysical(crc, checksum, file, At());
      while |buffer| < HEADER_SIZE
        invariant Valid() && r == ReadPhysical(crc, checksum, file, At())
        decreases if |buffer| >= HEADER_SIZE then 0 else if eof then 1 else 2
      {
        if eof {
          return false;
        }
        // The block was whole: what is left of it is padding.
        ghost var c := At();
        var n := if |file| - pos < BLOCK_SIZE then |file| - pos else BLOCK_SIZE;
        buffer, eof, pos := file[pos..pos + n], n < BLOCK_SIZE, pos + n;
        assert At() == c.Refill(file);
      }
      return true;
    }

    method TakeFragmentFromBuffer() returns (kind: nat, fragment: Bytes)
      requires |buffer| >= HEADER_SIZE
      modifies this`buffer, this`drops
      ensures
        var r := old(TakeFragment(crc, checksum, At()));
        kind == r.kind && fragment == r.fragment && At() == r.next && drops == old(drops) + r.drops
    {
      var length := PayloadLength(buffer);
      if HEADER_SIZE + length > |buffer| {
        var dropSize := |buffer|;
        buffer := [];
        if !eof {
          Report(dropSize, "bad record length");
          return BAD_RECORD, [];
        }
        // The payload is cut short by a crash.
        return EOF, [];
      }
      if buffer[6] == ZERO && length == 0 {
        buffer := [];
        return BAD_RECORD, [];
      }
      if checksum {
        var expected := StoredChecksum(buffer);
        if crc(buffer[6..HEADER_SIZE + length]) != expected {
          // Nothing in the header can be relied on.
          var dropSize := |buffer|;
          buffer := [];
          Report(dropSize, "checksum mismatch");
          return BAD_RECORD, [];
        }
      }
      kind, fragment := TypeOf(buffer[6]), buffer[HEADER_SIZE..HEADER_SIZE + length];
      buffer := buffer[HEADER_SIZE + length..];
    }

    method ReadRecord() returns (record: Option<Bytes>)
      requires Valid()
      modifies this
      ensures Valid()
      ensures
        var r := old(ReadLogical(crc, checksum, file, At(), false, []));
        record == r.record && At() == r.next && drops == old(drops) + r.drops
    {
      var inFragment, scratch := false, [];
      ghost var r := ReadLogical(crc, checksum, file, At(), false, []);
      ghost var all := drops + r.drops;
      var progress := More;
      while progress == More
        invariant Valid()
        invariant match progress
                  case Eof => LogicalRead(None, At(), r.drops) == r && all == drops
                  case Complete => LogicalRead(Some(scratch), At(), r.drops) == r && all == drops
                  case More =>
                    var rest := ReadLogical(crc, checksum, file, At(), inFragment, scratch);
                    r == rest.(drops := r.drops) && all == drops + rest.drops
        decreases progress == More, At().Remaining(file)
      {
        progress, inFragment, scratch := ReadFragment(inFragment, scratch);
      }
      record := if progress == Complete then Some(scratch) else None;
    }

    // Reads one fragment and puts it to what there is of its record.
    method ReadFragment(inFragment: bool, scratch: Bytes)
      returns (progress: Progress, stillInFragment: bool, newScratch: Bytes)
      requires Valid()
      modifies this
      ensures Valid()
      ensures
        var r := old(ReadLogical(crc, checksum, file, At(), inFragment, scratch));
        var all := old(drops) + r.drops;
        match progress
        case Eof => LogicalRead(None, At(), r.drops) == r && all == drops
        case Complete => LogicalRead(Some(newScratch), At(), r.drops) == r && all == drops
        case More =>
          var rest := ReadLogical(crc, checksum, file, At(), stillInFragment, newScratch);
          && At().Remaining(file) < old(At()).Remaining(file)
          && r == rest.(drops := r.drops) && all == drops + rest.drops
    {
      ghost var p := ReadPhysical(crc, checksum, file, At());
      var kind, fragment := ReadPhysicalRecord();
      if kind == EOF {
        // A record without its end is not a corruption: the writer may have crashed.
        return Eof, false, [];
      }
      ghost var a := Assemble(kind, fragment, inFragment, scratch);
      var done;
      done, stillInFragment, newScratch := AddFragment(kind, fragment, inFragment, scratch);
      progress := if done then Complete else More;
      Append3(old(drops), p.drops, a.drops, ReadLogical(crc, checksum, file, At(), stillInFragment, newScratch).drops);
    }

    // Puts a fragment to what there is of its record.
    method AddFragment(kind: nat, fragment: Bytes, inFragment: bool, scratch: Bytes)
      returns (done: bool, stillInFragment: bool, newScratch: Bytes)
      requires kind != EOF
      modifies this`drops
      ensures
        var a := Assemble(kind, fragment, inFragment, scratch);
        a == Assembly(done, stillInFragment, newScratch, a.drops) && drops == old(drops) + a.drops
    {
      done, stillInFragment, newScratch := false, inFragment, scratch;
      if kind == FULL {
        if inFragment && scratch != [] {
          Report(|scratch|, "partial record without end(1)");
        }
        return true, false, fragment;
      } else if kind == FIRST {
        if inFragment && scratch != [] {
          Report(|scratch|, "partial record without end(2)");
        }
        stillInFragment, newScratch := true, fragment;
      } else if kind == MIDDLE {
        if !inFragment {
          Report(|fragment|, "missing start of fragmented record(1)");
        } else {
          newScratch := scratch + fragment;
        }
      } else if kind == LAST {
        if !inFragment {
          Report(|fragment|, "missing start of fragmented record(2)");
        } else {
          return true, false, scratch + fragment;
        }
      } else if kind == BAD_RECORD {
        if inFragment {
          Report(|scratch|, "error in middle of record");
          stillInFragment, newScratch := false, [];
        }
      } else {
        Report(|fragment| + if inFragment then |scratch| else 0, "unknown record type");
        stillInFragment, newScratch := false, [];
      }
    }

    method Report(bytes: nat, reason: string)
      modifies this`drops
      ensures drops == old(drops) + [Drop(bytes, reason)]
    {
      drops := drops + [Drop(bytes, reason)];
    }
  }

  lemma Append3(a: seq<Drop>, b: seq<Drop>, c: seq<Drop>, d: seq<Drop>)
    ensures a + b + c == a + (b + c)
    ensures a + b + c + d == a + ((b + c) + d)
  {
  }
}
