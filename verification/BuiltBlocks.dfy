/** Positions in a block that was built: every move goes to the entry it should. */
module BuiltBlocks {
  import opened Primitives
  import opened Coding
  import opened BlockFormat
  import opened BlockBuilders
  import opened BlockCursors

  function HeaderOf(l: Layout, i: nat): Header
    requires l.Valid() && i < |l.entries|
  {
    assert l.SharesPrefix(i);
    var s, e := l.shared[i], l.entries[i];
    Header(s, |e.key| - s, |e.value|, HeaderSize(s, e))
  }

  // A block that was built: its bytes, its restart points, and what is parsed where its entries are.
  ghost predicate Built(b: Raw, l: Layout) {
    && l.Valid() && b.Valid() && b.End() == |l.Body()| && b.data[..b.End()] == l.Body() && b.Count() == |l.starts|
    && (forall k :: 0 <= k < |l.starts| ==> b.points[k] == if l.entries == [] then 0 else l.Offset(l.starts[k]))
    && forall i :: 0 <= i < |l.entries| ==> b.At(l.Offset(i)) == Entry(HeaderOf(l, i))
  }

  // ----- Places -----

  // Entry i falls in the block of entries that starts at this restart.
  ghost predicate InRestart(starts: seq<nat>, restart: nat, i: nat) {
    && restart < |starts| && starts[restart] <= i
    && (restart + 1 < |starts| ==> i <= starts[restart + 1])
  }

  // key has the bytes that entry i leaves out.
  ghost predicate HasPrefixOf(l: Layout, i: nat, key: Bytes)
    requires l.Valid() && i < |l.entries|
  {
    && l.SharesPrefix(i)
    && l.shared[i] <= |key| && key[..l.shared[i]] == l.entries[i].key[..l.shared[i]]
  }

  // About to parse entry i: just past entry i - 1, or at a restart.
  ghost predicate Poised(b: Raw, l: Layout, c: Cursor, i: nat) {
    && Built(b, l) && i <= |l.entries| && c.status == Fine
    && c.Next() == l.Offset(i)
    && (i < |l.entries| ==> HasPrefixOf(l, i, c.key))
    && c.restartIndex < b.Count() && l.starts[c.restartIndex] <= i
  }

  // At entry i, or past the last one.
  ghost predicate Standing(b: Raw, l: Layout, c: Cursor, i: nat) {
    && Built(b, l) && i <= |l.entries| && c.status == Fine
    && if i < |l.entries| then AtEntry(b, l, c, i) else c.current == b.End()
  }

  ghost predicate AtEntry(b: Raw, l: Layout, c: Cursor, i: nat)
    requires l.Valid() && i < |l.entries|
  {
    var e := l.entries[i];
    && c.current == l.Offset(i) && c.key == e.key
    && c.Next() == l.Offset(i + 1) <= |b.data| && c.valueSize == |e.value|
    && b.data[c.valueOffset..c.Next()] == e.value
    && InRestart(l.starts, c.restartIndex, i)
  }

  /** The offset says whether there is a current entry. */
  lemma StandingIsAt(b: Raw, l: Layout, c: Cursor, i: nat)
    requires Standing(b, l, c, i)
    ensures IsAt(b, c) <==> i < |l.entries|
  {
    EntryIsInside(l, i);
  }

  // ----- What the bytes of a built block say -----

  lemma {:induction false} RestartPointsAreOffsets(l: Layout, k: nat)
    requires l.Valid() && |BlockBytes(l)| < POW32 && k < |l.starts|
    ensures |l.Body()| + 4 * k + 4 <= |BlockBytes(l)|
    ensures PointAt(BlockBytes(l), |l.Body()|, k) == Points(l)[k]
  {
    PointIsInBody(l, k);
    PointIsRead(l.Body(), Points(l), Fixed32(|l.starts|), k);
  }

  lemma PointIsRead(body: Bytes, points: seq<nat>, rest: Bytes, k: nat)
    requires k < |points| && points[k] < POW32
    ensures |body| + 4 * k + 4 <= |body + RestartBytes(points) + rest|
    ensures PointAt(body + RestartBytes(points) + rest, |body|, k) == points[k]
  {
    RestartAt(points, k);
    SliceOfMiddle(body, RestartBytes(points), rest, 4 * k, 4 * k + 4);
  }

  lemma {:induction false} PointIsInBody(l: Layout, k: nat)
    requires l.Valid() && k < |l.starts|
    ensures Points(l)[k] <= |l.Body()|
  {
    if l.entries != [] {
      l.BodyAt(l.starts[k]);
    }
  }

  lemma SliceOfMiddle(a: Bytes, b: Bytes, c: Bytes, i: nat, j: nat)
    requires i <= j <= |b|
    ensures (a + b + c)[|a| + i..|a| + j] == b[i..j]
  {
  }

  lemma {:induction false} EntryInData(data: Bytes, l: Layout, i: nat)
    requires l.Valid() && l.Body() <= data && i < |l.entries|
    ensures l.SharesPrefix(i) && l.Offset(i) < |l.Body()|
    ensures l.Offset(i + 1) == l.Offset(i) + |EntryBytes(l.shared[i], l.entries[i])| <= |l.Body()|
    ensures data[l.Offset(i)..|l.Body()|] == EntryBytes(l.shared[i], l.entries[i]) + l.From(i + 1)
  {
    l.EntryAtOffset(i);
    assert data[l.Offset(i)..|l.Body()|] == l.Body()[l.Offset(i)..];
  }

  lemma {:induction false} EntryIsInside(l: Layout, i: nat)
    requires l.Valid() && i <= |l.entries|
    ensures l.Offset(i) < |l.Body()| <==> i < |l.entries|
    ensures l.Offset(i) <= |l.Body()|
  {
    l.BodyAt(|l.entries|);
    l.BodyAt(i);
    l.OffsetOrder(i, |l.entries|);
  }

  // Where the key and the value of an encoded entry are.
  lemma {:induction false} EntryParts(data: Bytes, limit: nat, o: nat, s: nat, e: KeyValue, rest: Bytes)
    requires s <= |e.key|
    requires o <= limit <= |data| && data[o..limit] == EntryBytes(s, e) + rest
    ensures
      var p, next := o + HeaderSize(s, e), o + |EntryBytes(s, e)|;
      && next == p + (|e.key| - s) + |e.value| <= limit
      && data[p..p + (|e.key| - s)] == e.key[s..] && data[p + (|e.key| - s)..next] == e.value
  {
    EntrySlices(s, e, rest);
    TwoSlices(data, o, limit, EntryBytes(s, e) + rest, HeaderSize(s, e), e.key[s..], e.value);
  }

  lemma TwoSlices(data: Bytes, o: nat, limit: nat, whole: Bytes, n: nat, k: Bytes, v: Bytes)
    requires o <= limit <= |data| && data[o..limit] == whole && n + |k| + |v| <= |whole|
    requires whole[n..n + |k|] == k && whole[n + |k|..n + |k| + |v|] == v
    ensures o + n + |k| + |v| <= limit && data[o + n..o + n + |k|] == k && data[o + n + |k|..o + n + |k| + |v|] == v
  {
    SliceOfSlice(data, o, limit, n, n + |k|);
    SliceOfSlice(data, o, limit, n + |k|, n + |k| + |v|);
  }

  lemma SliceOfSlice(b: Bytes, o: nat, limit: nat, i: nat, j: nat)
    requires o <= limit <= |b| && i <= j <= limit - o
    ensures b[o..limit][i..j] == b[o + i..o + j]
  {
    assert forall k :: i <= k < j ==> b[o..limit][k] == b[o + k];
  }

  lemma ParseOfEntry(data: Bytes, end: nat, o: nat, h: Header, e: KeyValue, rest: Bytes)
    requires h.shared <= |e.key| && h == Header(h.shared, |e.key| - h.shared, |e.value|, HeaderSize(h.shared, e))
    requires o < end <= |data| && data[o..end] == EntryBytes(h.shared, e) + rest && |e.key| + |e.value| < POW32
    ensures ParseAt(data, end, o) == Entry(h)
  {
    ParseEntryRoundTrip(h.shared, e, rest);
  }

  // What is parsed at the offset of an entry.
  lemma ParsedAtEntry(data: Bytes, l: Layout, i: nat)
    requires l.Valid() && l.Body() <= data && i < |l.entries| && |l.entries[i].key| + |l.entries[i].value| < POW32
    ensures l.Offset(i) < |l.Body()| && ParseAt(data, |l.Body()|, l.Offset(i)) == Entry(HeaderOf(l, i))
  {
    EntryInData(data, l, i);
    ParseOfEntry(data, |l.Body()|, l.Offset(i), HeaderOf(l, i), l.entries[i], l.From(i + 1));
  }

  ghost predicate EntriesParse(data: Bytes, l: Layout)
    requires l.Valid()
  {
    && |l.Body()| <= |data|
    && forall i :: 0 <= i < |l.entries| ==>
         l.Offset(i) < |l.Body()| && ParseAt(data, |l.Body()|, l.Offset(i)) == Entry(HeaderOf(l, i))
  }

  lemma ParsedAtEntries(data: Bytes, l: Layout)
    requires l.Valid() && l.Body() <= data
    requires forall i :: 0 <= i < |l.entries| ==> |l.entries[i].key| + |l.entries[i].value| < POW32
    ensures EntriesParse(data, l)
  {
    forall i: nat | i < |l.entries|
      ensures l.Offset(i) < |l.Body()| && ParseAt(data, |l.Body()|, l.Offset(i)) == Entry(HeaderOf(l, i))
    {
      ParsedAtEntry(data, l, i);
    }
  }

  ghost predicate PointsRead(data: Bytes, l: Layout)
    requires l.Valid()
  {
    forall k :: 0 <= k < |l.starts| ==> |l.Body()| + 4 * k + 4 <= |data| && PointAt(data, |l.Body()|, k) == Points(l)[k]
  }

  lemma PointsReadBack(l: Layout)
    requires l.Valid() && |BlockBytes(l)| < POW32
    ensures PointsRead(BlockBytes(l), l)
  {
    forall k: nat | k < |l.starts|
      ensures |l.Body()| + 4 * k + 4 <= |BlockBytes(l)| && PointAt(BlockBytes(l), |l.Body()|, k) == Points(l)[k]
    {
      RestartPointsAreOffsets(l, k);
    }
  }

  // What a builder makes of entries.
  ghost predicate IsBlockOf(data: Bytes, l: Layout) {
    l.Valid() && data == BlockBytes(l) && forall i :: 0 <= i < |l.entries| ==> |l.entries[i].key| + |l.entries[i].value| < POW32
  }

  /** A built block opens as what it was built from. */
  lemma OpensAsBuilt(data: Bytes, l: Layout)
    requires IsBlockOf(data, l) && |data| < POW32
    ensures Open(data) == Block(|l.Body()|, |l.starts|)
    ensures Built(RawOf(data, |l.Body()|, |l.starts|), l)
  {
    OpenBuilt(l);
    BodyInData(l);
    ParsedAtEntries(data, l);
    PointsReadBack(l);
    ReadsAsBuilt(data, l);
  }

  lemma BodyInData(l: Layout)
    requires l.Valid()
    ensures l.Body() <= BlockBytes(l)
  {
  }

  lemma ReadsAsBuilt(data: Bytes, l: Layout)
    requires l.Valid() && l.Body() <= data && |l.Body()| + 4 * |l.starts| + 4 == |data|
    requires EntriesParse(data, l) && PointsRead(data, l)
    ensures Built(RawOf(data, |l.Body()|, |l.starts|), l)
  {
  }

  // Where the parts of an entry are.
  lemma PartsOfEntry(b: Raw, l: Layout, i: nat)
    requires Built(b, l) && i < |l.entries|
    ensures PartsAre(b.data, b.End(), l.Offset(i), HeaderOf(l, i), l.entries[i], l.Offset(i + 1))
  {
    EntryInData(b.data, l, i);
    PartsThere(b.data, b.End(), l.Offset(i), HeaderOf(l, i), l.entries[i], l.From(i + 1), l.Offset(i + 1));
  }

  lemma PartsThere(data: Bytes, end: nat, o: nat, h: Header, e: KeyValue, rest: Bytes, next: nat)
    requires h.shared <= |e.key| && h == Header(h.shared, |e.key| - h.shared, |e.value|, HeaderSize(h.shared, e))
    requires o <= end <= |data| && data[o..end] == EntryBytes(h.shared, e) + rest && next == o + |EntryBytes(h.shared, e)|
    ensures PartsAre(data, end, o, h, e, next)
  {
    EntryParts(data, end, o, h.shared, e, rest);
  }

  ghost predicate PartsAre(data: Bytes, end: nat, o: nat, h: Header, e: KeyValue, next: nat) {
    var p := o + h.size;
    && o < next == p + h.nonShared + h.valueLength <= end <= |data| && h.shared <= |e.key| && h.size > 0
    && data[p..p + h.nonShared] == e.key[h.shared..] && data[p + h.nonShared..next] == e.value && h.valueLength == |e.value|
  }

  // ----- Moves -----

  // Of restart points, those of the starts before entry i are the ones before an offset.
  ghost predicate Cuts(points: seq<nat>, starts: seq<nat>, o: nat, i: nat) {
    |points| == |starts| && forall k :: 0 <= k < |points| ==> (points[k] < o <==> starts[k] < i)
  }

  lemma PointBefore(b: Raw, l: Layout, k: nat, i: nat)
    requires Built(b, l) && k < b.Count() && i < |l.entries|
    ensures b.points[k] < l.Offset(i) <==> l.starts[k] < i
  {
    l.OffsetOrder(l.starts[k], i);
  }

  lemma PointsCut(b: Raw, l: Layout, i: nat)
    requires Built(b, l) && i < |l.entries|
    ensures Cuts(b.points, l.starts, l.Offset(i), i)
  {
    forall k: nat | k < |b.points|
      ensures b.points[k] < l.Offset(i) <==> l.starts[k] < i
    {
      PointBefore(b, l, k, i);
    }
  }

  lemma {:induction false} RestartOfEntry(b: Raw, starts: seq<nat>, index: nat, o: nat, i: nat)
    requires b.Valid() && Cuts(b.points, starts, o, i) && index < b.Count() && starts[index] <= i
    ensures InRestart(starts, RestartOf(b, index, o), i)
    decreases b.Count() - index
  {
    if index + 1 < b.Count() && b.points[index + 1] < o {
      RestartOfEntry(b, starts, index + 1, o, i);
    }
  }

  lemma TakenIs(b: Raw, c: Cursor, p: Parsed)
    requires b.Valid() && c.restartIndex < b.Count() && c.Next() < b.End() && b.At(c.Next()) == p
    ensures Parse(b, c) == Took(b, c, p)
  {
  }

  lemma ParsePastLast(b: Raw, l: Layout, c: Cursor)
    requires Poised(b, l, c, |l.entries|)
    ensures b.Valid() && Standing(b, l, Parse(b, c), |l.entries|)
  {
    EntryIsInside(l, |l.entries|);
  }

  /** Parsing goes to the entry that comes next, or past the last one. */
  lemma ParseBuilt(b: Raw, l: Layout, c: Cursor, i: nat)
    requires Poised(b, l, c, i)
    ensures b.Valid() && Standing(b, l, Parse(b, c), i)
  {
    if i == |l.entries| {
      ParsePastLast(b, l, c);
    } else {
      ParseAtEntry(b, l, c, i);
    }
  }

  lemma ParseAtEntry(b: Raw, l: Layout, c: Cursor, i: nat)
    requires Poised(b, l, c, i) && i < |l.entries|
    ensures b.Valid() && Standing(b, l, Parse(b, c), i)
  {
    PartsOfEntry(b, l, i);
    EntryTaken(b, l, c, i);
    TakenIs(b, c, Entry(HeaderOf(l, i)));
  }

  lemma EntryTaken(b: Raw, l: Layout, c: Cursor, i: nat)
    requires Poised(b, l, c, i) && i < |l.entries|
    requires PartsAre(b.data, b.End(), l.Offset(i), HeaderOf(l, i), l.entries[i], l.Offset(i + 1))
    ensures b.Fits(c.Next(), HeaderOf(l, i)) && c.Next() < b.End()
    ensures Standing(b, l, Took(b, c, Entry(HeaderOf(l, i))), i)
  {
    PointsCut(b, l, i);
    RestartOfEntry(b, l.starts, c.restartIndex, l.Offset(i), i);
    TookIs(b, c, HeaderOf(l, i), l.entries[i], l.Offset(i + 1));
    StandsThere(b, l, Took(b, c, Entry(HeaderOf(l, i))), i, l.Offset(i + 1) - |l.entries[i].value|);
  }

  lemma TookIs(b: Raw, c: Cursor, h: Header, e: KeyValue, next: nat)
    requires b.Valid() && c.restartIndex < b.Count() && PartsAre(b.data, b.End(), c.Next(), h, e, next)
    requires h.shared <= |c.key| && c.key[..h.shared] == e.key[..h.shared]
    ensures b.Fits(c.Next(), h) && c.Next() < b.End()
    ensures Took(b, c, Entry(h))
         == Cursor(c.Next(), RestartOf(b, c.restartIndex, c.Next()), e.key, next - |e.value|, |e.value|, c.status)
  {
    TakesTogether(e.key, c.key, h.shared);
  }

  lemma StandsThere(b: Raw, l: Layout, d: Cursor, i: nat, q: nat)
    requires Built(b, l) && i < |l.entries| && d.status == Fine && InRestart(l.starts, d.restartIndex, i)
    requires d.current == l.Offset(i) && d.key == l.entries[i].key && d.valueOffset == q && d.valueSize == |l.entries[i].value|
    requires q + d.valueSize == l.Offset(i + 1) <= |b.data| && b.data[q..l.Offset(i + 1)] == l.entries[i].value
    ensures Standing(b, l, d, i)
  {
  }

  lemma TakesTogether(whole: Bytes, key: Bytes, s: nat)
    requires s <= |whole| && s <= |key| && key[..s] == whole[..s]
    ensures key[..s] + whole[s..] == whole
  {
  }

  lemma PoisedAfter(b: Raw, l: Layout, c: Cursor, i: nat)
    requires Standing(b, l, c, i) && i < |l.entries|
    ensures Poised(b, l, c, i + 1)
  {
    if i + 1 < |l.entries| {
      assert l.SharesPrefix(i + 1);
    }
  }

  lemma PoisedAtRestart(b: Raw, l: Layout, c: Cursor, index: nat)
    requires Built(b, l) && c.status == Fine && index < b.Count()
    ensures b.Valid() && Poised(b, l, AtRestart(b, c, index), l.starts[index])
  {
    if l.entries != [] {
      assert l.SharesPrefix(l.starts[index]);
    }
  }

  /** To the entry after the current one. */
  lemma NextBuilt(b: Raw, l: Layout, c: Cursor, i: nat)
    requires Standing(b, l, c, i) && i < |l.entries|
    ensures b.Valid() && c.restartIndex < b.Count() && Standing(b, l, Parse(b, c), i + 1)
  {
    PoisedAfter(b, l, c, i);
    ParseBuilt(b, l, c, i + 1);
  }

  lemma EndsBefore(l: Layout, next: nat, k: nat, i: nat)
    requires l.Valid() && k < |l.entries| && i <= |l.entries| && next == l.Offset(k + 1)
    ensures next < l.Offset(i) <==> k + 1 < i
  {
    l.OffsetOrder(k + 1, i);
  }

  lemma EndsAt(b: Raw, l: Layout, d: Cursor, k: nat)
    requires Standing(b, l, d, k) && k < |l.entries|
    ensures d.Next() == l.Offset(k + 1)
  {
  }

  // Past an entry that is before entry i.
  lemma AfterEntry(b: Raw, l: Layout, d: Cursor, k: nat, i: nat)
    requires Standing(b, l, d, k) && i <= |l.entries| && (k < i || l.entries == [])
    ensures IsAt(b, d) && d.Next() < l.Offset(i) <==> k + 1 < i
    ensures k + 1 < i ==> Poised(b, l, d, k + 1)
  {
    StandingIsAt(b, l, d, k);
    if k < |l.entries| {
      EndsAt(b, l, d, k);
      EndsBefore(l, d.Next(), k, i);
      PoisedAfter(b, l, d, k);
    }
  }

  // What a scan goes through, whatever it is that holds of the cursors on the way.
  lemma {:induction false} ScanGoes(b: Raw, c: Cursor, original: nat, poised: (Cursor, nat) -> bool, standing: (Cursor, nat) -> bool,
                                    k: nat, last: nat)
    requires b.Valid() && k <= last && poised(c, k)
    requires forall d: Cursor, m: nat :: poised(d, m) && m <= last ==>
      && d.restartIndex < b.Count() && standing(Parse(b, d), m)
      && (IsAt(b, Parse(b, d)) && Parse(b, d).Next() < original <==> m < last)
      && (m < last ==> poised(Parse(b, d), m + 1))
    ensures c.restartIndex < b.Count() && standing(Scan(b, c, original), last)
    decreases last - k
  {
    if k < last {
      ScanGoes(b, Parse(b, c), original, poised, standing, k + 1, last);
    }
  }

  // From a place before entry i, to the entry whose end is at the start of entry i.
  lemma ScanBuilt(b: Raw, l: Layout, c: Cursor, k: nat, i: nat)
    requires Poised(b, l, c, k) && i <= |l.entries| && (k < i || l.entries == [])
    ensures b.Valid() && c.restartIndex < b.Count()
    ensures Standing(b, l, Scan(b, c, l.Offset(i)), if i == 0 then 0 else i - 1)
  {
    var last := if i == 0 then 0 else i - 1;
    forall d: Cursor, m: nat | Poised(b, l, d, m) && m <= last
      ensures d.restartIndex < b.Count() && Standing(b, l, Parse(b, d), m)
      ensures IsAt(b, Parse(b, d)) && Parse(b, d).Next() < l.Offset(i) <==> m < last
      ensures m < last ==> Poised(b, l, Parse(b, d), m + 1)
    {
      ParseBuilt(b, l, d, m);
      AfterEntry(b, l, Parse(b, d), m, i);
    }
    ScanGoes(b, c, l.Offset(i), (d: Cursor, m: nat) => Poised(b, l, d, m), (d: Cursor, m: nat) => Standing(b, l, d, m), k, last);
  }

  lemma {:induction false} RestartBeforeEntry(b: Raw, starts: seq<nat>, index: nat, o: nat, i: nat)
    requires b.Valid() && Cuts(b.points, starts, o, i) && index < b.Count()
    ensures
      match RestartBefore(b, index, o)
      case None => starts[0] >= i
      case Some(r) => starts[r] < i
  {
    if b.points[index] >= o && index > 0 {
      RestartBeforeEntry(b, starts, index - 1, o, i);
    }
  }

  /** To the entry before the current one, or nowhere from the first. */
  lemma PreviousBuilt(b: Raw, l: Layout, c: Cursor, i: nat)
    requires Standing(b, l, c, i) && i < |l.entries|
    ensures b.Valid() && c.restartIndex < b.Count()
    ensures Standing(b, l, Previous(b, c), if i == 0 then |l.entries| else i - 1)
  {
    PointsCut(b, l, i);
    RestartBeforeEntry(b, l.starts, c.restartIndex, c.current, i);
    match RestartBefore(b, c.restartIndex, c.current)
    case None =>
    case Some(index) =>
      PoisedAtRestart(b, l, c, index);
      ScanBuilt(b, l, AtRestart(b, c, index), l.starts[index], i);
  }

  /** From anywhere to the entry that begins the block. */
  lemma FirstBuilt(b: Raw, l: Layout, c: Cursor)
    requires Built(b, l) && c.status == Fine
    ensures b.Valid() && Standing(b, l, First(b, c), 0)
  {
    PoisedAtRestart(b, l, c, 0);
    ParseBuilt(b, l, AtRestart(b, c, 0), 0);
  }

  lemma EndOfBody(b: Raw, l: Layout)
    requires Built(b, l)
    ensures l.Offset(|l.entries|) == b.End() && (l.starts[|l.starts| - 1] < |l.entries| || l.entries == [])
  {
    l.BodyAt(|l.entries|);
  }

  /** From anywhere to the entry that ends it. */
  lemma LastBuilt(b: Raw, l: Layout, c: Cursor)
    requires Built(b, l) && c.status == Fine
    ensures b.Valid() && Standing(b, l, Last(b, c), if l.entries == [] then 0 else |l.entries| - 1)
  {
    PoisedAtRestart(b, l, c, b.Count() - 1);
    EndOfBody(b, l);
    ScanBuilt(b, l, AtRestart(b, c, b.Count() - 1), l.starts[b.Count() - 1], |l.entries|);
  }

  // ----- Seeks -----

  ghost predicate Increasing(rank: Comparator, es: seq<KeyValue>) {
    forall i, j :: 0 <= i < j < |es| ==> rank(es[i].key) < rank(es[j].key)
  }

  // The first i entries all come before target.
  ghost predicate AllBefore(rank: Comparator, es: seq<KeyValue>, target: Bytes, i: nat)
    requires i <= |es|
  {
    forall j :: 0 <= j < i ==> rank(es[j].key) < rank(target)
  }

  lemma AllBeforeOneMore(rank: Comparator, es: seq<KeyValue>, target: Bytes, i: nat)
    requires i < |es| && AllBefore(rank, es, target, i) && rank(es[i].key) < rank(target)
    ensures AllBefore(rank, es, target, i + 1)
  {
  }

  // i is the first entry whose key is at or after target.
  ghost predicate IsFirstAtOrAfter(rank: Comparator, es: seq<KeyValue>, target: Bytes, i: nat) {
    && i <= |es|
    && AllBefore(rank, es, target, i)
    && (i < |es| ==> rank(es[i].key) >= rank(target))
  }

  lemma KeyAtBuilt(b: Raw, l: Layout, index: nat)
    requires Built(b, l) && index < b.Count() && l.entries != []
    ensures b.Valid() && l.starts[index] < |l.entries| && KeyAt(b, index) == Key(l.entries[l.starts[index]].key)
  {
    WholeKeyAt(b, l, index, l.starts[index]);
  }

  lemma WholeKeyAt(b: Raw, l: Layout, index: nat, i: nat)
    requires Built(b, l) && index < b.Count() && i < |l.entries| && l.shared[i] == 0 && b.points[index] == l.Offset(i)
    ensures KeyAt(b, index) == Key(l.entries[i].key)
  {
    PartsOfEntry(b, l, i);
    WholeKey(b, l.Offset(i), HeaderOf(l, i), l.entries[i], l.Offset(i + 1));
  }

  lemma WholeKey(b: Raw, o: nat, h: Header, e: KeyValue, next: nat)
    requires b.Valid() && PartsAre(b.data, b.End(), o, h, e, next) && h.shared == 0
    ensures KeyOf(b, o, Entry(h)) == Key(e.key)
  {
    assert e.key[0..] == e.key;
  }

  ghost predicate RestartIsBefore(l: Layout, rank: Comparator, target: Bytes, restart: nat) {
    && restart < |l.starts| && l.starts[restart] < |l.entries| && rank(l.entries[l.starts[restart]].key) < rank(target)
  }

  // Where there are two restarts there are entries.
  lemma HasEntries(l: Layout)
    requires l.Valid() && |l.starts| > 1
    ensures l.entries != []
  {
  }

  lemma EntriesBefore(l: Layout, rank: Comparator, target: Bytes, restart: nat)
    requires l.Valid() && Increasing(rank, l.entries) && restart < |l.starts|
    requires restart > 0 ==> RestartIsBefore(l, rank, target, restart)
    ensures l.starts[restart] <= |l.entries| && AllBefore(rank, l.entries, target, l.starts[restart])
  {
  }

  // Whether a restart is before the target, as its key says.
  lemma RestartCompared(b: Raw, l: Layout, rank: Comparator, target: Bytes, mid: nat)
    requires Built(b, l) && 0 < mid < b.Count()
    ensures b.Valid() && KeyAt(b, mid).Key?
    ensures rank(KeyAt(b, mid).key) < rank(target) ==> RestartIsBefore(l, rank, target, mid)
  {
    HasEntries(l);
    KeyAtBuilt(b, l, mid);
  }

  // The keys at restarts can be read and say where the target is.
  ghost predicate KeysFit(keys: seq<Result>, l: Layout, rank: Comparator, target: Bytes) {
    && |keys| == |l.starts|
    && forall m :: 0 < m < |keys| ==> keys[m].Key? && (rank(keys[m].key) < rank(target) ==> RestartIsBefore(l, rank, target, m))
  }

  lemma KeysOfBuilt(b: Raw, l: Layout, rank: Comparator, target: Bytes)
    requires Built(b, l)
    ensures b.Valid() && KeysFit(KeysAt(b), l, rank, target)
  {
    var keys := KeysAt(b);
    KeysAtAre(b);
    forall m: nat | 0 < m < |keys|
      ensures keys[m].Key? && (rank(keys[m].key) < rank(target) ==> RestartIsBefore(l, rank, target, m))
    {
      assert IsRead(b, keys, m);
      RestartCompared(b, l, rank, target, m);
    }
  }

  // A restart that all entries before it come before target.
  lemma BisectOver(keys: seq<Result>, l: Layout, rank: Comparator, target: Bytes)
    requires l.Valid() && Increasing(rank, l.entries) && KeysFit(keys, l, rank, target)
    ensures
      var r := Bisect(keys, rank, target, 0, |keys| - 1);
      r.Restart? && l.starts[r.index] <= |l.entries| && AllBefore(rank, l.entries, target, l.starts[r.index])
  {
    BisectFinds(keys, rank, target, 0, |keys| - 1);
    EntriesBefore(l, rank, target, Bisect(keys, rank, target, 0, |keys| - 1).index);
  }

  // One entry on, towards the target.
  lemma ScanForStep(b: Raw, l: Layout, c: Cursor, rank: Comparator, target: Bytes, i: nat)
    requires PoisedBefore(b, l, c, rank, target, i)
    ensures b.Valid() && c.restartIndex < b.Count()
    ensures GoesOn(b, c, rank, target) ==> i < |l.entries| && PoisedBefore(b, l, Parse(b, c), rank, target, i + 1)
    ensures !GoesOn(b, c, rank, target) ==> FoundAt(b, l, Parse(b, c), rank, target, i)
  {
    ParseBuilt(b, l, c, i);
    ParsedFor(b, l, Parse(b, c), rank, target, i);
  }

  lemma ParsedFor(b: Raw, l: Layout, d: Cursor, rank: Comparator, target: Bytes, i: nat)
    requires Standing(b, l, d, i) && AllBefore(rank, l.entries, target, i)
    ensures IsAt(b, d) && rank(d.key) < rank(target) ==> i < |l.entries| && PoisedBefore(b, l, d, rank, target, i + 1)
    ensures !(IsAt(b, d) && rank(d.key) < rank(target)) ==> FoundAt(b, l, d, rank, target, i)
  {
    StandingIsAt(b, l, d, i);
    if i < |l.entries| && rank(l.entries[i].key) < rank(target) {
      AllBeforeOneMore(rank, l.entries, target, i);
      PoisedAfter(b, l, d, i);
    }
  }

  // The entry past a cursor is there, and before the target.
  ghost predicate GoesOn(b: Raw, c: Cursor, rank: Comparator, target: Bytes)
    requires b.Valid() && c.restartIndex < b.Count()
  {
    IsAt(b, Parse(b, c)) && rank(Parse(b, c).key) < rank(target)
  }

  // What a step of a scan for a target must do, of cursors that are poised, and of those that have found it.
  ghost predicate StepsRight(b: Raw, rank: Comparator, target: Bytes, poised: (Cursor, nat) -> bool, found: (Cursor, nat) -> bool,
                             d: Cursor, m: nat, n: nat)
  {
    && b.Valid() && d.restartIndex < b.Count()
    && if GoesOn(b, d, rank, target) then m < n && poised(Parse(b, d), m + 1) else found(Parse(b, d), m)
  }

  lemma {:induction false} ScanForGoes(b: Raw, c: Cursor, rank: Comparator, target: Bytes, poised: (Cursor, nat) -> bool,
                                       found: (Cursor, nat) -> bool, k: nat, n: nat)
    returns (p: nat)
    requires k <= n && poised(c, k)
    requires forall d: Cursor, m: nat :: poised(d, m) && m <= n ==> StepsRight(b, rank, target, poised, found, d, m, n)
    ensures b.Valid() && c.restartIndex < b.Count() && found(ScanFor(b, c, rank, target), p)
    decreases n - k
  {
    p := k;
    assert StepsRight(b, rank, target, poised, found, c, k, n);
    ScanForIs(b, c, rank, target);
    if GoesOn(b, c, rank, target) {
      p := ScanForGoes(b, Parse(b, c), rank, target, poised, found, k + 1, n);
    }
  }

  lemma ScanForIs(b: Raw, c: Cursor, rank: Comparator, target: Bytes)
    requires b.Valid() && c.restartIndex < b.Count()
    ensures GoesOn(b, c, rank, target) ==>
      Parse(b, c).restartIndex < b.Count() && ScanFor(b, c, rank, target) == ScanFor(b, Parse(b, c), rank, target)
    ensures !GoesOn(b, c, rank, target) ==> ScanFor(b, c, rank, target) == Parse(b, c)
  {
  }

  lemma ScanForBuilt(b: Raw, l: Layout, c: Cursor, rank: Comparator, target: Bytes, i: nat) returns (p: nat)
    requires PoisedBefore(b, l, c, rank, target, i)
    ensures b.Valid() && c.restartIndex < b.Count() && FoundAt(b, l, ScanFor(b, c, rank, target), rank, target, p)
  {
    var poised := (d: Cursor, m: nat) => PoisedBefore(b, l, d, rank, target, m);
    var found := (d: Cursor, m: nat) => FoundAt(b, l, d, rank, target, m);
    forall d: Cursor, m: nat | poised(d, m) && m <= |l.entries|
      ensures StepsRight(b, rank, target, poised, found, d, m, |l.entries|)
    {
      ScanForStep(b, l, d, rank, target, m);
    }
    p := ScanForGoes(b, c, rank, target, poised, found, i, |l.entries|);
  }

  ghost predicate PoisedBefore(b: Raw, l: Layout, c: Cursor, rank: Comparator, target: Bytes, i: nat) {
    Poised(b, l, c, i) && AllBefore(rank, l.entries, target, i)
  }

  ghost predicate FoundAt(b: Raw, l: Layout, c: Cursor, rank: Comparator, target: Bytes, i: nat) {
    Standing(b, l, c, i) && IsFirstAtOrAfter(rank, l.entries, target, i)
  }

  /** To the first entry at or after the target. */
  lemma SoughtBuilt(b: Raw, l: Layout, c: Cursor, rank: Comparator, target: Bytes) returns (p: nat)
    requires Built(b, l) && c.status == Fine && Increasing(rank, l.entries)
    ensures b.Valid() && FoundAt(b, l, Sought(b, c, rank, target), rank, target, p)
  {
    KeysOfBuilt(b, l, rank, target);
    p := SoughtOver(b, l, c, rank, target, KeysAt(b));
  }

  lemma SoughtOver(b: Raw, l: Layout, c: Cursor, rank: Comparator, target: Bytes, keys: seq<Result>) returns (p: nat)
    requires Built(b, l) && b.Valid() && c.status == Fine && Increasing(rank, l.entries) && KeysFit(keys, l, rank, target)
    ensures |keys| == b.Count()
    ensures FoundAt(b, l, SoughtAt(b, c, rank, target, Bisect(keys, rank, target, 0, b.Count() - 1)), rank, target, p)
  {
    BisectOver(keys, l, rank, target);
    p := SoughtFrom(b, l, c, rank, target, Bisect(keys, rank, target, 0, b.Count() - 1));
  }

  lemma SoughtFrom(b: Raw, l: Layout, c: Cursor, rank: Comparator, target: Bytes, where: Where) returns (p: nat)
    requires Built(b, l) && b.Valid() && c.status == Fine && where.Restart? && where.index < b.Count()
    requires l.starts[where.index] <= |l.entries| && AllBefore(rank, l.entries, target, l.starts[where.index])
    ensures FoundAt(b, l, SoughtAt(b, c, rank, target, where), rank, target, p)
  {
    PoisedAtRestart(b, l, c, where.index);
    p := ScanForBuilt(b, l, AtRestart(b, c, where.index), rank, target, l.starts[where.index]);
  }

  // ----- Whatever the block was built from -----

  // If c is at an entry, d is at the one after it.
  ghost predicate IsNext(b: Raw, c: Cursor, d: Cursor) {
    forall l, i: nat :: Standing(b, l, c, i) && i < |l.entries| ==> Standing(b, l, d, i + 1)
  }

  // If c is at an entry, d is at the one before it, or nowhere.
  ghost predicate IsBefore(b: Raw, c: Cursor, d: Cursor) {
    forall l, i: nat :: Standing(b, l, c, i) && i < |l.entries| ==> Standing(b, l, d, if i == 0 then |l.entries| else i - 1)
  }

  ghost predicate IsFirst(b: Raw, d: Cursor) {
    forall l :: Built(b, l) ==> Standing(b, l, d, 0)
  }

  ghost predicate IsLast(b: Raw, d: Cursor) {
    forall l :: Built(b, l) ==> Standing(b, l, d, if l.entries == [] then 0 else |l.entries| - 1)
  }

  // d is at the first entry at or after the target, if the keys are in order.
  ghost predicate IsSought(b: Raw, d: Cursor, rank: Comparator, target: Bytes) {
    forall l :: Built(b, l) && Increasing(rank, l.entries) ==> exists p :: FoundAt(b, l, d, rank, target, p)
  }

  lemma ParseIsNext(b: Raw, c: Cursor)
    requires b.Valid() && c.restartIndex < b.Count()
    ensures IsNext(b, c, Parse(b, c))
  {
    forall l, i: nat | Standing(b, l, c, i) && i < |l.entries|
      ensures Standing(b, l, Parse(b, c), i + 1)
    {
      NextBuilt(b, l, c, i);
    }
  }

  lemma PreviousIsBefore(b: Raw, c: Cursor)
    requires b.Valid() && c.restartIndex < b.Count()
    ensures IsBefore(b, c, Previous(b, c))
  {
    forall l, i: nat | Standing(b, l, c, i) && i < |l.entries|
      ensures Standing(b, l, Previous(b, c), if i == 0 then |l.entries| else i - 1)
    {
      PreviousBuilt(b, l, c, i);
    }
  }

  lemma FirstIsFirst(b: Raw, c: Cursor)
    requires b.Valid()
    ensures c.status == Fine ==> IsFirst(b, First(b, c))
  {
    forall l | Built(b, l) && c.status == Fine
      ensures Standing(b, l, First(b, c), 0)
    {
      FirstBuilt(b, l, c);
    }
  }

  lemma LastIsLast(b: Raw, c: Cursor, d: Cursor)
    requires b.Valid() && d == Last(b, c)
    ensures c.status == Fine ==> IsLast(b, d)
  {
    forall l | Built(b, l) && c.status == Fine
      ensures Standing(b, l, d, if l.entries == [] then 0 else |l.entries| - 1)
    {
      LastBuilt(b, l, c);
    }
  }

  lemma SoughtIsSought(b: Raw, c: Cursor, rank: Comparator, target: Bytes)
    requires b.Valid()
    ensures c.status == Fine ==> IsSought(b, Sought(b, c, rank, target), rank, target)
  {
    forall l | Built(b, l) && c.status == Fine && Increasing(rank, l.entries)
      ensures exists p :: FoundAt(b, l, Sought(b, c, rank, target), rank, target, p)
    {
      var _ := SoughtBuilt(b, l, c, rank, target);
    }
  }
}
