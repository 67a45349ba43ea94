/** Positions in an encoded block: where an iterator goes from one, over any bytes, and what that is in a block that
    was built. */
module BlockCursors {
  import opened Primitives
  import opened Coding
  import opened BlockFormat
  import opened BlockBuilders

  // ----- Opening a block -----

  datatype Opened = BadBlock | EmptyBlock | Block(restartOffset: nat, numRestarts: nat)

  // The trailer of any bytes at all, taken as a block.
  function Open(data: Bytes): (r: Opened)
    ensures r.Block? ==> r.restartOffset + 4 * r.numRestarts + 4 == |data| && r.numRestarts > 0
  {
    if |data| < 4 then BadBlock
    else
      var numRestarts := DecodeFixed(data[|data| - 4..]);
      if numRestarts > (|data| - 4) / 4 then BadBlock
      else if numRestarts == 0 then EmptyBlock
      else Block(|data| - (1 + numRestarts) * 4, numRestarts)
  }

  lemma OpenBuilt(l: Layout)
    requires l.Valid() && |BlockBytes(l)| < POW32
    ensures Open(BlockBytes(l)) == Block(|l.Body()|, |l.starts|)
  {
    var data := BlockBytes(l);
    Pow256Widths();
    FixedRoundTrip(|l.starts|, 4);
    assert data[|data| - 4..] == Fixed32(|l.starts|);
  }

  // ----- Any bytes -----

  // What there is at an offset.  The source adds up the lengths of an entry in 32 bits; where the sum is taken for a
  // smaller one, nothing is said of what it reads.
  datatype Parsed = Entry(h: Header) | Bad | Wraps

  function ParseAt(data: Bytes, restarts: nat, o: nat): (p: Parsed)
    requires o < restarts <= |data|
    ensures p.Entry? ==> p.h.size > 0 && o + p.h.size + p.h.nonShared + p.h.valueLength <= restarts
  {
    match ParseEntry(data[o..restarts])
    case None => Bad
    case Some(h) => if h.nonShared + h.valueLength >= POW32 then Wraps else Entry(h)
  }

  function PointAt(data: Bytes, restarts: nat, index: nat): nat
    requires restarts + 4 * index + 4 <= |data|
  {
    DecodeFixed(data[restarts + 4 * index..restarts + 4 * index + 4])
  }

  // A block: its bytes, what there is at each offset before the restart array, and the restart points in that.
  datatype Raw = Raw(data: Bytes, parsed: seq<Parsed>, points: seq<nat>) {
    ghost predicate Valid() {
      && points != [] && End() <= |data|
      && forall o :: 0 <= o < End() && parsed[o].Entry? ==> Fits(o, parsed[o].h)
    }

    predicate Fits(o: nat, h: Header) {
      h.size > 0 && o + h.size + h.nonShared + h.valueLength <= End()
    }

    // Where the restart array begins, and how many restarts there are.
    function End(): nat {
      |parsed|
    }

    function Count(): nat {
      |points|
    }

    function At(o: nat): Parsed {
      if o < End() then parsed[o] else Bad
    }
  }

  function RawOf(data: Bytes, restarts: nat, count: nat): (b: Raw)
    requires count > 0 && restarts + 4 * count + 4 == |data|
    ensures b.Valid() && b.data == data && b.End() == restarts && b.Count() == count
    ensures forall o :: 0 <= o < restarts ==> b.At(o) == ParseAt(data, restarts, o)
    ensures forall k :: 0 <= k < count ==> b.points[k] == PointAt(data, restarts, k)
  {
    Raw(data, seq(restarts, o requires 0 <= o < restarts => ParseAt(data, restarts, o)),
        seq(count, k requires 0 <= k < count => PointAt(data, restarts, k)))
  }

  datatype Status = Fine | Corruption | Undefined

  datatype Cursor = Cursor(current: nat, restartIndex: nat, key: Bytes, valueOffset: nat, valueSize: nat, status: Status) {
    // The offset just past the entry.
    function Next(): nat {
      valueOffset + valueSize
    }
  }

  predicate IsAt(b: Raw, c: Cursor) {
    c.current < b.End()
  }

  function Off(b: Raw, c: Cursor): Cursor {
    c.(current := b.End(), restartIndex := b.Count())
  }

  function Failed(b: Raw, status: Status): Cursor {
    Cursor(b.End(), b.Count(), [], 0, 0, status)
  }

  function AtRestart(b: Raw, c: Cursor, index: nat): Cursor
    requires b.Valid() && index < b.Count()
  {
    c.(restartIndex := index, key := [], valueOffset := b.points[index], valueSize := 0)
  }

  // The last restart from index on that is before offset o.
  function RestartOf(b: Raw, index: nat, o: nat): (r: nat)
    requires b.Valid() && index < b.Count()
    ensures index <= r < b.Count()
    decreases b.Count() - index
  {
    if index + 1 < b.Count() && b.points[index + 1] < o then RestartOf(b, index + 1, o) else index
  }

  // Takes apart the entry that has been parsed past the current one.
  function Took(b: Raw, c: Cursor, p: Parsed): (d: Cursor)
    requires b.Valid() && c.restartIndex < b.Count() && c.Next() < b.End()
    requires p.Entry? ==> b.Fits(c.Next(), p.h)
    ensures IsAt(b, d) ==> d.restartIndex < b.Count() && d.current == c.Next() < d.Next() <= b.End()
  {
    match p
    case Wraps => Failed(b, Undefined)
    case Bad => Failed(b, Corruption)
    case Entry(h) =>
      if |c.key| < h.shared then Failed(b, Corruption)
      else
        var o, q := c.Next(), c.Next() + h.size;
        Cursor(o, RestartOf(b, c.restartIndex, o), c.key[..h.shared] + b.data[q..q + h.nonShared], q + h.nonShared, h.valueLength,
               c.status)
  }

  function Parse(b: Raw, c: Cursor): (d: Cursor)
    requires b.Valid() && c.restartIndex < b.Count()
    ensures IsAt(b, d) ==> d.restartIndex < b.Count() && d.current == c.Next() < d.Next() <= b.End()
  {
    if c.Next() >= b.End() then Off(b, c) else Took(b, c, b.At(c.Next()))
  }

  function Left(b: Raw, c: Cursor): nat {
    if c.Next() < b.End() then b.End() - c.Next() else 0
  }

  // On until an entry that does not end before an offset.
  function Scan(b: Raw, c: Cursor, original: nat): (d: Cursor)
    requires b.Valid() && c.restartIndex < b.Count()
    decreases Left(b, c)
  {
    var d := Parse(b, c);
    if IsAt(b, d) && d.Next() < original then Scan(b, d, original) else d
  }

  // The nearest restart before an offset.
  function RestartBefore(b: Raw, index: nat, original: nat): (r: Option<nat>)
    requires b.Valid() && index < b.Count()
    ensures r.Some? ==> r.value <= index
  {
    if b.points[index] < original then Some(index)
    else if index == 0 then None
    else RestartBefore(b, index - 1, original)
  }

  function Previous(b: Raw, c: Cursor): (d: Cursor)
    requires b.Valid() && c.restartIndex < b.Count()
  {
    match RestartBefore(b, c.restartIndex, c.current)
    case None => Off(b, c)
    case Some(index) => Scan(b, AtRestart(b, c, index), c.current)
  }

  function First(b: Raw, c: Cursor): Cursor
    requires b.Valid()
  {
    Parse(b, AtRestart(b, c, 0))
  }

  function Last(b: Raw, c: Cursor): Cursor
    requires b.Valid()
  {
    Scan(b, AtRestart(b, c, b.Count() - 1), b.End())
  }

  // A comparator on keys, as the rank it gives each.
  type Comparator = Bytes -> real

  datatype Result = Key(key: Bytes) | Failure(status: Status)

  // The key of an entry at an offset, which must share nothing.
  function KeyOf(b: Raw, o: nat, p: Parsed): (r: Result)
    requires b.Valid() && (p.Entry? ==> b.Fits(o, p.h))
  {
    match p
    case Wraps => Failure(Undefined)
    case Bad => Failure(Corruption)
    case Entry(h) => if h.shared != 0 then Failure(Corruption) else Key(b.data[o + h.size..o + h.size + h.nonShared])
  }

  function KeyAt(b: Raw, index: nat): (r: Result)
    requires b.Valid() && index < b.Count()
  {
    KeyOf(b, b.points[index], b.At(b.points[index]))
  }

  function KeysAt(b: Raw): (keys: seq<Result>)
    requires b.Valid()
    ensures |keys| == b.Count()
  {
    seq(b.Count(), i requires 0 <= i < b.Count() => KeyAt(b, i))
  }

  ghost predicate IsRead(b: Raw, keys: seq<Result>, i: nat) {
    b.Valid() && i < b.Count() && i < |keys| && keys[i] == KeyAt(b, i)
  }

  ghost predicate AreRead(b: Raw, keys: seq<Result>) {
    |keys| == b.Count() && forall i :: 0 <= i < |keys| ==> IsRead(b, keys, i)
  }

  lemma KeysAtAre(b: Raw)
    requires b.Valid()
    ensures AreRead(b, KeysAt(b))
  {
    forall i | 0 <= i < b.Count()
      ensures IsRead(b, KeysAt(b), i)
    {
    }
  }

  datatype Where = Restart(index: nat) | Stopped(status: Status)

  // Binary search over the keys at the restarts.
  function Bisect(keys: seq<Result>, rank: Comparator, target: Bytes, left: nat, right: nat): (r: Where)
    requires left <= right < |keys|
    ensures r.Restart? ==> left <= r.index <= right
    decreases right - left
  {
    if left == right then Restart(left)
    else
      var mid := (left + right + 1) / 2;
      match keys[mid]
      case Failure(status) => Stopped(status)
      case Key(key) =>
        if rank(key) < rank(target) then Bisect(keys, rank, target, mid, right) else Bisect(keys, rank, target, left, mid - 1)
  }

  /** The restart found is the first, or its key is before the target; and one is found unless some key on the way
      cannot be read. */
  lemma {:induction false} BisectFinds(keys: seq<Result>, rank: Comparator, target: Bytes, left: nat, right: nat)
    requires left <= right < |keys|
    ensures
      match Bisect(keys, rank, target, left, right)
      case Restart(index) => index == left || (keys[index].Key? && rank(keys[index].key) < rank(target))
      case Stopped(status) => exists m :: left < m <= right && keys[m] == Failure(status)
    decreases right - left
  {
    if left < right {
      var mid := (left + right + 1) / 2;
      if keys[mid].Key? {
        if rank(keys[mid].key) < rank(target) {
          BisectFinds(keys, rank, target, mid, right);
        } else {
          BisectFinds(keys, rank, target, left, mid - 1);
        }
      }
    }
  }

  // On until a key that is not before a target.
  function ScanFor(b: Raw, c: Cursor, rank: Comparator, target: Bytes): (d: Cursor)
    requires b.Valid() && c.restartIndex < b.Count()
    decreases Left(b, c)
  {
    var d := Parse(b, c);
    if IsAt(b, d) && rank(d.key) < rank(target) then ScanFor(b, d, rank, target) else d
  }

  // From where the binary search over restarts has ended.
  function SoughtAt(b: Raw, c: Cursor, rank: Comparator, target: Bytes, where: Where): (d: Cursor)
    requires b.Valid() && (where.Restart? ==> where.index < b.Count())
  {
    match where
    case Stopped(status) => Failed(b, status)
    case Restart(index) => ScanFor(b, AtRestart(b, c, index), rank, target)
  }

  function Sought(b: Raw, c: Cursor, rank: Comparator, target: Bytes): (d: Cursor)
    requires b.Valid()
  {
    SoughtAt(b, c, rank, target, Bisect(KeysAt(b), rank, target, 0, b.Count() - 1))
  }

  // ----- What holds on any bytes -----

  /** A cursor at an entry has its value inside the entries, and a restart that is there. */
  ghost predicate Proper(b: Raw, c: Cursor) {
    c.current <= b.End() && (IsAt(b, c) ==> c.restartIndex < b.Count() && c.current < c.Next() <= b.End())
  }

  lemma {:induction false} ScanIsProper(b: Raw, c: Cursor, original: nat)
    requires b.Valid() && c.restartIndex < b.Count()
    ensures Proper(b, Scan(b, c, original))
    decreases Left(b, c)
  {
    var d := Parse(b, c);
    if IsAt(b, d) && d.Next() < original {
      ScanIsProper(b, d, original);
    }
  }

  lemma {:induction false} ScanForIsProper(b: Raw, c: Cursor, rank: Comparator, target: Bytes)
    requires b.Valid() && c.restartIndex < b.Count()
    ensures var d := ScanFor(b, c, rank, target); Proper(b, d) && (IsAt(b, d) ==> rank(d.key) >= rank(target))
    decreases Left(b, c)
  {
    var d := Parse(b, c);
    if IsAt(b, d) && rank(d.key) < rank(target) {
      ScanForIsProper(b, d, rank, target);
    }
  }

  lemma PreviousIsProper(b: Raw, c: Cursor)
    requires b.Valid() && c.restartIndex < b.Count()
    ensures Proper(b, Previous(b, c))
  {
    match RestartBefore(b, c.restartIndex, c.current)
    case None =>
    case Some(index) => ScanIsProper(b, AtRestart(b, c, index), c.current);
  }

  lemma LastIsProper(b: Raw, c: Cursor, index: nat, end: nat)
    requires b.Valid() && index == b.Count() - 1 && end == b.End()
    ensures Last(b, c) == Scan(b, AtRestart(b, c, index), end) && Proper(b, Scan(b, AtRestart(b, c, index), end))
  {
    ScanIsProper(b, AtRestart(b, c, index), end);
  }

  lemma SoughtAtIsProper(b: Raw, c: Cursor, rank: Comparator, target: Bytes, where: Where)
    requires b.Valid() && (where.Restart? ==> where.index < b.Count())
    ensures var d := SoughtAt(b, c, rank, target, where); Proper(b, d) && (IsAt(b, d) ==> rank(d.key) >= rank(target))
  {
    if where.Restart? {
      ScanForIsProper(b, AtRestart(b, c, where.index), rank, target);
    }
  }

  /** A seek that ends at an entry ends at one that is not before the target. */
  lemma SoughtIsProper(b: Raw, c: Cursor, rank: Comparator, target: Bytes)
    requires b.Valid()
    ensures var d := Sought(b, c, rank, target); Proper(b, d) && (IsAt(b, d) ==> rank(d.key) >= rank(target))
  {
    SoughtAtIsProper(b, c, rank, target, Bisect(KeysAt(b), rank, target, 0, b.Count() - 1));
  }

  // The entries read one after the other, and where that ends.
  function ReadOn(b: Raw, c: Cursor): (r: (seq<Cursor>, Cursor))
    requires b.Valid() && c.restartIndex < b.Count()
    decreases Left(b, c)
  {
    var d := Parse(b, c);
    if IsAt(b, d) then
      var (more, end) := ReadOn(b, d);
      ([d] + more, end)
    else ([], d)
  }

  /** Reading forwards to the end either has taken in every byte before the restart array, each entry beginning where
      the one before ends, or ends in a failure. */
  lemma {:induction false} NothingIsSkipped(b: Raw, c: Cursor)
    requires b.Valid() && c.restartIndex < b.Count() && c.status == Fine
    ensures
      var (read, end) := ReadOn(b, c);
      && !IsAt(b, end)
      && (forall i :: 0 <= i < |read| ==> read[i].current == if i == 0 then c.Next() else read[i - 1].Next())
      && (end.status == Fine ==> (if read == [] then c else read[|read| - 1]).Next() >= b.End())
    decreases Left(b, c)
  {
    var d := Parse(b, c);
    if IsAt(b, d) {
      NothingIsSkipped(b, d);
      var (more, end) := ReadOn(b, d);
      assert ReadOn(b, c) == ([d] + more, end);
    }
  }
}
