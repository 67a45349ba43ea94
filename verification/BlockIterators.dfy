/** Block::Iter: moving over the entries of an encoded block, whatever its bytes. */
module BlockIterators {
  import opened Primitives
  import opened Coding
  import opened BlockFormat
  import opened BlockCursors
  import opened BuiltBlocks

  class Iter {
    const rank: Comparator
    const data: Bytes
    const restarts: nat  // offset of the restart array
    const numRestarts: nat
    var current: nat  // offset of the current entry; at least restarts when not valid
    var restartIndex: nat
    var key: Bytes
    var valueOffset: nat
    var valueSize: nat
    var status: Status

    ghost predicate Ready() {
      numRestarts > 0 && restarts + 4 * numRestarts + 4 == |data| < POW32
    }

    ghost predicate Valid()
      reads this
    {
      Ready() && Proper(Contents(), Place())
    }

    ghost function Contents(): (b: Raw)
      requires Ready()
      ensures b.Valid() && b.End() == restarts && b.Count() == numRestarts
    {
      RawOf(data, restarts, numRestarts)
    }

    ghost function Place(): Cursor
      reads this
    {
      Cursor(current, restartIndex, key, valueOffset, valueSize, status)
    }

    constructor (rank: Comparator, data: Bytes, restarts: nat, numRestarts: nat)
      requires Open(data) == Block(restarts, numRestarts) && |data| < POW32
      ensures Valid() && !IsValid() && status == Fine
      ensures this.rank == rank && this.data == data && this.restarts == restarts && this.numRestarts == numRestarts
    {
      this.rank, this.data, this.restarts, this.numRestarts := rank, data, restarts, numRestarts;
      current, restartIndex, key, valueOffset, valueSize, status := restarts, numRestarts, [], 0, 0, Fine;
    }

    predicate IsValid()
      reads this
    {
      current < restarts
    }

    function NextEntryOffset(): nat
      reads this
    {
      valueOffset + valueSize
    }

    method GetRestartPoint(index: nat) returns (offset: nat)
      requires Ready() && index < numRestarts
      ensures offset == Contents().points[index]
    {
      offset := DecodeFixed(data[restarts + 4 * index..restarts + 4 * index + 4]);
    }

    method SeekToRestartPoint(index: nat)
      requires Ready() && index < numRestarts
      modifies this
      ensures Place() == AtRestart(Contents(), old(Place()), index)
    {
      key := [];
      restartIndex := index;
      // The next parse sets current.
      valueOffset := GetRestartPoint(index);
      valueSize := 0;
    }

    method Fail(why: Status)
      modifies this
      ensures Ready() ==> Place() == Failed(Contents(), why)
    {
      current, restartIndex, key, valueOffset, valueSize, status := restarts, numRestarts, [], 0, 0, why;
    }

    /** Decodes the entry after the current one and moves to it. */
    method ParseNextKey() returns (r: bool)
      requires Ready() && restartIndex < numRestarts
      modifies this
      ensures Place() == Parse(Contents(), old(Place()))
      ensures Valid() && r == IsValid()
    {
      var o := NextEntryOffset();
      if o >= restarts {
        // Past the last entry.
        current := restarts;
        restartIndex := numRestarts;
        return false;
      }
      var p := ParsedAt(data, restarts, o);
      TakeEntry(p);
      r := current < restarts;
    }

    // To the entry parsed after the current one, if there is one that is right.
    method TakeEntry(p: Parsed)
      requires Ready() && restartIndex < numRestarts && NextEntryOffset() < restarts
      requires p.Entry? ==> Contents().Fits(NextEntryOffset(), p.h)
      modifies this
      ensures Place() == Took(Contents(), old(Place()), p)
    {
      if p.Wraps? {
        Fail(Undefined);
      } else if p.Bad? || |key| < p.h.shared {
        Fail(Corruption);
      } else {
        current := NextEntryOffset();
        MoveRestartIndex();
        var q := current + p.h.size;
        key := key[..p.h.shared] + data[q..q + p.h.nonShared];
        valueOffset, valueSize := q + p.h.nonShared, p.h.valueLength;
      }
    }

    method MoveRestartIndex()
      requires Ready() && restartIndex < numRestarts
      modifies this`restartIndex
      ensures restartIndex == RestartOf(Contents(), old(restartIndex), current)
    {
      while restartIndex + 1 < numRestarts
        invariant restartIndex < numRestarts
        invariant RestartOf(Contents(), restartIndex, current) == RestartOf(Contents(), old(restartIndex), current)
        decreases numRestarts - restartIndex
      {
        var point := GetRestartPoint(restartIndex + 1);
        if point >= current {
          break;
        }
        restartIndex := restartIndex + 1;
      }
    }

    /** To the entry after the current one. */
    method Next()
      requires Valid() && IsValid()
      modifies this
      ensures Valid() && Place() == Parse(Contents(), old(Place()))
      ensures IsNext(Contents(), old(Place()), Place())
    {
      ParseIsNext(Contents(), Place());
      var _ := ParseNextKey();
    }

    /** To the entry before the current one, if there is one: back to a restart before it, then
        forwards. */
    method Prev()
      requires Valid() && IsValid()
      modifies this
      ensures Valid() && Place() == Previous(Contents(), old(Place()))
      ensures IsBefore(Contents(), old(Place()), Place())
    {
      PreviousIsBefore(Contents(), Place());
      PreviousIsProper(Contents(), Place());
      ghost var c := Place();
      var original := current;
      var found := BackToRestart(original);
      if found {
        assert AtRestart(Contents(), Place(), restartIndex) == AtRestart(Contents(), c, restartIndex);
        ScanTo(restartIndex, original);
      } else {
        // Before the first entry there is none.
        current, restartIndex := restarts, numRestarts;
      }
    }

    // Back to a restart before an offset, unless there is none.
    method BackToRestart(original: nat) returns (found: bool)
      requires Ready() && restartIndex < numRestarts
      modifies this`restartIndex
      ensures RestartBefore(Contents(), old(restartIndex), original) == if found then Some(restartIndex) else None
    {
      found := true;
      var point := GetRestartPoint(restartIndex);
      while found && point >= original
        invariant restartIndex < numRestarts && point == Contents().points[restartIndex]
        invariant
          RestartBefore(Contents(), old(restartIndex), original)
       == if found then RestartBefore(Contents(), restartIndex, original) else None
        decreases restartIndex, found
      {
        if restartIndex == 0 {
          found := false;
        } else {
          restartIndex := restartIndex - 1;
          point := GetRestartPoint(restartIndex);
        }
      }
    }

    // From a restart, to an entry that does not end before an offset.
    method ScanTo(index: nat, original: nat)
      requires Ready() && index < numRestarts
      modifies this
      ensures Place() == Scan(Contents(), AtRestart(Contents(), old(Place()), index), original)
    {
      SeekToRestartPoint(index);
      ghost var end := Scan(Contents(), Place(), original);
      var more := true;
      while more
        invariant if more then restartIndex < numRestarts && Scan(Contents(), Place(), original) == end else Place() == end
        decreases if more then 1 + Left(Contents(), Place()) else 0
      {
        more := ParseNextKey();
        more := more && NextEntryOffset() < original;
      }
    }

    method SeekToFirst()
      requires Ready()
      modifies this
      ensures Valid() && Place() == First(Contents(), old(Place()))
      ensures old(status) == Fine ==> IsFirst(Contents(), Place())
    {
      FirstIsFirst(Contents(), Place());
      SeekToRestartPoint(0);
      var _ := ParseNextKey();
    }

    method SeekToLast()
      requires Ready()
      modifies this
      ensures Valid() && Place() == Last(Contents(), old(Place()))
      ensures old(status) == Fine ==> IsLast(Contents(), Place())
    {
      ghost var c := Place();
      ScanToLast();
      LastIsLast(Contents(), c, Place());
    }

    method ScanToLast()
      requires Ready()
      modifies this
      ensures Valid() && Place() == Last(Contents(), old(Place()))
    {
      var index := numRestarts - 1;
      LastIsProper(Contents(), Place(), index, restarts);
      ScanTo(index, restarts);
    }

    /** To the first entry at or after target. */
    method Seek(target: Bytes)
      requires Ready()
      modifies this
      ensures Valid() && Place() == Sought(Contents(), old(Place()), rank, target)
      ensures IsValid() ==> rank(key) >= rank(target)
      ensures old(status) == Fine ==> IsSought(Contents(), Place(), rank, target)
    {
      SoughtIsSought(Contents(), Place(), rank, target);
      SoughtIsProper(Contents(), Place(), rank, target);
      KeysAtAre(Contents());
      var where := FindRestart(target, KeysAt(Contents()));
      if where.Stopped? {
        Fail(where.status);
        return;
      }
      SeekToRestartPoint(where.index);
      ScanForTarget(target);
    }

    // Linear search for the first key at or after target.
    method ScanForTarget(target: Bytes)
      requires Ready() && restartIndex < numRestarts
      modifies this
      ensures Place() == ScanFor(Contents(), old(Place()), rank, target)
    {
      var more := true;
      while more
        invariant
          if more then restartIndex < numRestarts && ScanFor(Contents(), Place(), rank, target) == ScanFor(Contents(), old(Place()), rank, target)
          else Place() == ScanFor(Contents(), old(Place()), rank, target)
        decreases if more then 1 + Left(Contents(), Place()) else 0
      {
        more := ParseNextKey();
        more := more && rank(key) < rank(target);
      }
    }

    // The last restart whose key is before target, as a binary search finds it.
    method FindRestart(target: Bytes, ghost keys: seq<Result>) returns (where: Where)
      requires Ready() && AreRead(Contents(), keys)
      ensures where == Bisect(keys, rank, target, 0, numRestarts - 1)
    {
      var left, right := 0, numRestarts - 1;
      ghost var end := Bisect(keys, rank, target, left, right);
      while left < right
        invariant 0 <= left <= right < numRestarts
        invariant Bisect(keys, rank, target, left, right) == end
      {
        var mid := (left + right + 1) / 2;
        var midKey := KeyAtRestart(mid, keys);
        if midKey.Failure? {
          return Stopped(midKey.status);
        }
        if rank(midKey.key) < rank(target) {
          // All restart blocks before mid are uninteresting.
          left := mid;
        } else {
          // From mid on every key is at or after the target.
          right := mid - 1;
        }
      }
      where := Restart(left);
    }

    method KeyAtRestart(index: nat, ghost keys: seq<Result>) returns (midKey: Result)
      requires Ready() && index < numRestarts && AreRead(Contents(), keys)
      ensures midKey == keys[index]
    {
      assert IsRead(Contents(), keys, index);
      var offset := GetRestartPoint(index);
      if offset >= restarts {
        return Failure(Corruption);
      }
      var p := ParsedAt(data, restarts, offset);
      if p.Wraps? {
        return Failure(Undefined);
      }
      if p.Bad? || p.h.shared != 0 {
        return Failure(Corruption);
      }
      midKey := Key(data[offset + p.h.size..offset + p.h.size + p.h.nonShared]);
    }
  }

  // What there is at an offset before the restart array.
  method ParsedAt(data: Bytes, restarts: nat, o: nat) returns (p: Parsed)
    requires o < restarts <= |data|
    ensures p == ParseAt(data, restarts, o)
  {
    var h := DecodeHeader(data[o..restarts]);
    if h.None? {
      return Bad;
    }
    if h.value.nonShared + h.value.valueLength >= POW32 {
      return Wraps;
    }
    p := Entry(h.value);
  }

  lemma ThreeBytes(b: Bytes)
    requires |b| >= 3 && b[0] < 128 && b[1] < 128 && b[2] < 128
    ensures ParseHeader(b) == Some(Header(b[0], b[1], b[2], 3))
  {
    assert b[1..][0] == b[1] && b[1..][1..][0] == b[2];
  }

  /** Decodes a header, with a fast path for lengths below 128. */
  method DecodeHeader(b: Bytes) returns (h: Option<Header>)
    ensures h == ParseEntry(b)
  {
    if |b| < 3 {
      return None;
    }
    if b[0] < 128 && b[1] < 128 && b[2] < 128 {
      // Small numbers take a byte each.
      ThreeBytes(b);
      h := Some(Header(b[0], b[1], b[2], 3));
    } else {
      h := ParseHeader(b);
      if h.None? {
        return None;
      }
    }
    if |b| - h.value.size < (h.value.nonShared + h.value.valueLength) % POW32 {
      return None;
    }
  }

  /** An iterator over any bytes taken for a block, if they are one and hold anything. */
  method NewIterator(rank: Comparator, data: Bytes) returns (it: Iter?, status: Status)
    requires |data| < POW32
    ensures status == if Open(data).BadBlock? then Corruption else Fine
    ensures it != null <==> Open(data).Block?
    ensures it != null ==>
      && fresh(it) && it.Valid() && !it.IsValid() && it.status == Fine
      && it.rank == rank && it.data == data && Open(data) == Block(it.restarts, it.numRestarts)
    ensures forall l :: IsBlockOf(data, l) ==> it != null && Built(it.Contents(), l)
  {
    forall l | IsBlockOf(data, l)
      ensures Open(data) == Block(|l.Body()|, |l.starts|) && Built(RawOf(data, |l.Body()|, |l.starts|), l)
    {
      OpensAsBuilt(data, l);
    }
    match Open(data)
    case BadBlock =>
      it, status := null, Corruption;
    case EmptyBlock =>
      it, status := null, Fine;
    case Block(restarts, numRestarts) =>
      it := new Iter(rank, data, restarts, numRestarts);
      status := Fine;
  }
}
