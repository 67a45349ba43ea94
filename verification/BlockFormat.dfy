/** The layout of a table block: prefix-compressed entries, then the restart array. */
module BlockFormat {
  import opened Primitives
  import opened Coding

  datatype KeyValue = KeyValue(key: Bytes, value: Bytes)

  lemma DropTwice(all: Bytes, n: nat, front: Bytes, rest: Bytes)
    requires n <= |all| && all[n..] == front + rest
    ensures n + |front| + |rest| == |all| && all[n + |front|..] == rest
  {
    assert all[n + |front|..] == all[n..][|front|..];
  }

  // One entry, leaving out the first `shared` bytes of its key.
  function EntryBytes(shared: nat, e: KeyValue): (b: Bytes)
    requires shared <= |e.key|
    ensures |b| >= 3
  {
    Varint(shared) + (Varint(|e.key| - shared) + (Varint(|e.value|) + (e.key[shared..] + e.value)))
  }

  /** How entries are laid out: the bytes each key shares with the one before it, and the
      indices of the entries at which a restart begins. */
  datatype Layout = Layout(entries: seq<KeyValue>, shared: seq<nat>, starts: seq<nat>) {
    predicate Valid() {
      && |shared| == |entries|
      && (forall i :: 0 <= i < |entries| ==> SharesPrefix(i))
      && |starts| > 0 && starts[0] == 0
      && (forall k :: 0 <= k < |starts| && entries != [] ==> starts[k] < |entries| && shared[starts[k]] == 0)
      && (entries == [] ==> starts == [0])
      && (forall j, k :: 0 <= j < k < |starts| ==> starts[j] < starts[k])
    }

    predicate SharesPrefix(i: nat)
      requires i < |entries| == |shared|
    {
      && shared[i] <= |entries[i].key|
      && (i == 0 ==> shared[i] == 0)
      && (i > 0 ==> shared[i] <= |entries[i - 1].key| && entries[i - 1].key[..shared[i]] == entries[i].key[..shared[i]])
    }

    // The bytes of entries i, i + 1, ...
    function From(i: nat): Bytes
      requires Valid() && i <= |entries|
      decreases |entries| - i
    {
      if i == |entries| then []
      else
        assert SharesPrefix(i);
        EntryBytes(shared[i], entries[i]) + From(i + 1)
    }

    function Body(): Bytes
      requires Valid()
    {
      From(0)
    }

    function Offset(i: nat): (o: nat)
      requires Valid() && i <= |entries|
    {
      if i == 0 then 0
      else
        assert SharesPrefix(i - 1);
        Offset(i - 1) + |EntryBytes(shared[i - 1], entries[i - 1])|
    }

    lemma {:induction false} BodyAt(i: nat)
      requires Valid() && i <= |entries|
      ensures Offset(i) + |From(i)| == |Body()|
      ensures Body()[Offset(i)..] == From(i)
    {
      if i > 0 {
        BodyAt(i - 1);
        assert SharesPrefix(i - 1);
        DropTwice(Body(), Offset(i - 1), EntryBytes(shared[i - 1], entries[i - 1]), From(i));
      }
    }

    // The bytes at the offset of entry i are those of entry i, then those of the rest.
    lemma {:induction false} EntryAtOffset(i: nat)
      requires Valid() && i < |entries|
      ensures SharesPrefix(i)
      ensures Offset(i) + |EntryBytes(shared[i], entries[i])| == Offset(i + 1) <= |Body()|
      ensures Body()[Offset(i)..] == EntryBytes(shared[i], entries[i]) + From(i + 1)
    {
      assert SharesPrefix(i);
      BodyAt(i);
      BodyAt(i + 1);
    }

    lemma {:induction false} OffsetsIncrease(i: nat, j: nat)
      requires Valid() && i < j <= |entries|
      ensures Offset(i) + 3 <= Offset(j)
    {
      assert SharesPrefix(j - 1);
      if i < j - 1 {
        OffsetsIncrease(i, j - 1);
      }
    }

    lemma OffsetOrder(i: nat, j: nat)
      requires Valid() && i <= |entries| && j <= |entries|
      ensures Offset(i) < Offset(j) <==> i < j
    {
      if i < j {
        OffsetsIncrease(i, j);
      } else if j < i {
        OffsetsIncrease(j, i);
      }
    }

    // The block with one more entry.
    function Append(e: KeyValue, s: nat, restart: bool): Layout {
      Layout(entries + [e], shared + [s], if restart then starts + [|entries|] else starts)
    }
  }

  lemma {:induction false} AppendFrom(l: Layout, e: KeyValue, s: nat, restart: bool, i: nat)
    requires l.Valid() && l.Append(e, s, restart).Valid() && i <= |l.entries| && s <= |e.key|
    ensures l.Append(e, s, restart).From(i) == l.From(i) + EntryBytes(s, e)
    ensures l.Append(e, s, restart).Offset(i) == l.Offset(i)
    decreases |l.entries| - i
  {
    var m := l.Append(e, s, restart);
    AppendOffset(l, e, s, restart, i);
    assert m.SharesPrefix(i);
    if i == |l.entries| {
      assert m.From(i + 1) == [];
    } else {
      assert l.SharesPrefix(i);
      AppendFrom(l, e, s, restart, i + 1);
      Assoc(EntryBytes(l.shared[i], l.entries[i]), l.From(i + 1), EntryBytes(s, e));
    }
  }

  lemma {:induction false} AppendOffset(l: Layout, e: KeyValue, s: nat, restart: bool, i: nat)
    requires l.Valid() && l.Append(e, s, restart).Valid() && i <= |l.entries|
    ensures l.Append(e, s, restart).Offset(i) == l.Offset(i)
  {
    if i > 0 {
      AppendOffset(l, e, s, restart, i - 1);
      assert l.SharesPrefix(i - 1) && l.Append(e, s, restart).SharesPrefix(i - 1);
    }
  }

  // ----- The restart array -----

  function RestartBytes(points: seq<nat>): (b: Bytes)
    ensures |b| == 4 * |points|
  {
    if points == [] then [] else RestartBytes(points[..|points| - 1]) + Fixed32(points[|points| - 1])
  }

  lemma {:induction false} RestartAt(points: seq<nat>, k: nat)
    requires k < |points| && points[k] < POW32
    ensures RestartBytes(points)[4 * k..4 * k + 4] == Fixed32(points[k])
    ensures DecodeFixed(RestartBytes(points)[4 * k..4 * k + 4]) == points[k]
  {
    Pow256Widths();
    FixedRoundTrip(points[k], 4);
    if k < |points| - 1 {
      RestartAt(points[..|points| - 1], k);
      assert RestartBytes(points)[4 * k..4 * k + 4] == RestartBytes(points[..|points| - 1])[4 * k..4 * k + 4];
    }
  }

  // ----- Decoding one entry -----

  datatype Header = Header(shared: nat, nonShared: nat, valueLength: nat, size: nat)

  function ParseVarint32(b: Bytes): (r: Option<(nat, nat)>)
    ensures r.Some? ==> r.value.0 < POW32 && 0 < r.value.1 <= |b|
  {
    match ParseVarint(b, 5)
    case None => None
    case Some(p) => Some((p.0 % POW32, p.1))
  }

  // Three varints.
  function ParseHeader(b: Bytes): (r: Option<Header>)
    ensures r.Some? ==> r.value.size <= |b|
  {
    var s := ParseVarint32(b);
    if s.None? then None
    else
      var b1 := b[s.value.1..];
      var n := ParseVarint32(b1);
      if n.None? then None
      else
        var v := ParseVarint32(b1[n.value.1..]);
        if v.None? then None
        else Some(Header(s.value.0, n.value.0, v.value.0, s.value.1 + n.value.1 + v.value.1))
  }

  // A header, with room for what it announces; the sum of the lengths is taken in 32 bits.
  function ParseEntry(b: Bytes): (r: Option<Header>)
    ensures r.Some? ==> r.value.size <= |b|
  {
    if |b| < 3 then None
    else
      var h := ParseHeader(b);
      if h.None? || |b| - h.value.size < (h.value.nonShared + h.value.valueLength) % POW32 then None else h
  }

  lemma {:induction false} ParseVarint32RoundTrip(v: nat, rest: Bytes)
    requires v < POW32
    ensures ParseVarint32(Varint(v) + rest) == Some((v, |Varint(v)|))
    ensures (Varint(v) + rest)[|Varint(v)|..] == rest
  {
    Pow128Bounds();
    VarintRoundTrip(v, rest, 5);
  }

  lemma {:induction false} ParseHeaderRoundTrip(shared: nat, nonShared: nat, valueLength: nat, rest: Bytes, all: Bytes)
    requires shared < POW32 && nonShared < POW32 && valueLength < POW32
    requires all == Varint(shared) + (Varint(nonShared) + (Varint(valueLength) + rest))
    ensures ParseHeader(all)
         == Some(Header(shared, nonShared, valueLength, |Varint(shared)| + |Varint(nonShared)| + |Varint(valueLength)|))
  {
    ParseVarint32RoundTrip(shared, Varint(nonShared) + (Varint(valueLength) + rest));
    ParseVarint32RoundTrip(nonShared, Varint(valueLength) + rest);
    ParseVarint32RoundTrip(valueLength, rest);
  }

  // Where the key bytes of an encoded entry start.
  function HeaderSize(shared: nat, e: KeyValue): nat
    requires shared <= |e.key|
  {
    |Varint(shared)| + |Varint(|e.key| - shared)| + |Varint(|e.value|)|
  }

  lemma EntryThen(shared: nat, e: KeyValue, rest: Bytes)
    requires shared <= |e.key|
    ensures EntryBytes(shared, e) + rest
         == Varint(shared) + (Varint(|e.key| - shared) + (Varint(|e.value|) + (e.key[shared..] + (e.value + rest))))
  {
    var s, n, v, k := Varint(shared), Varint(|e.key| - shared), Varint(|e.value|), e.key[shared..];
    Assoc(s, n + (v + (k + e.value)), rest);
    Assoc(n, v + (k + e.value), rest);
    Assoc(v, k + e.value, rest);
    Assoc(k, e.value, rest);
  }

  lemma {:induction false} SliceAfter(a: Bytes, b: Bytes, c: Bytes, k: Bytes, v: Bytes, rest: Bytes)
    ensures
      var all, n := a + (b + (c + (k + (v + rest)))), |a| + |b| + |c|;
      all[n..n + |k|] == k && all[n + |k|..n + |k| + |v|] == v
  {
    var tail := k + (v + rest);
    var all, n := a + (b + (c + tail)), |a| + |b| + |c|;
    DropThree(a, b, c, tail);
    assert all[n..n + |k|] == all[n..][..|k|];
    assert all[n + |k|..n + |k| + |v|] == all[n..][|k|..|k| + |v|];
  }

  lemma DropThree(a: Bytes, b: Bytes, c: Bytes, tail: Bytes)
    ensures (a + (b + (c + tail)))[|a| + |b| + |c|..] == tail
  {
    var all := a + (b + (c + tail));
    assert all[|a|..] == b + (c + tail);
    assert all[|a|..][|b|..] == c + tail;
    assert all[|a| + |b| + |c|..] == all[|a|..][|b|..][|c|..];
  }

  lemma {:induction false} EntrySlices(shared: nat, e: KeyValue, rest: Bytes)
    requires shared <= |e.key|
    ensures
      var b, n, k := EntryBytes(shared, e) + rest, HeaderSize(shared, e), |e.key| - shared;
      && |EntryBytes(shared, e)| == n + k + |e.value|
      && b[n..n + k] == e.key[shared..] && b[n + k..n + k + |e.value|] == e.value
  {
    EntryThen(shared, e, rest);
    SliceAfter(Varint(shared), Varint(|e.key| - shared), Varint(|e.value|), e.key[shared..], e.value, rest);
  }

  lemma {:induction false} ParseEntryRoundTrip(shared: nat, e: KeyValue, rest: Bytes)
    requires shared <= |e.key| && |e.key| + |e.value| < POW32
    ensures ParseEntry(EntryBytes(shared, e) + rest) == Some(Header(shared, |e.key| - shared, |e.value|, HeaderSize(shared, e)))
  {
    HeaderOfEntry(shared, e, rest);
    EntrySlices(shared, e, rest);
    HasRoom(EntryBytes(shared, e) + rest, Header(shared, |e.key| - shared, |e.value|, HeaderSize(shared, e)));
  }

  lemma {:induction false} HeaderOfEntry(shared: nat, e: KeyValue, rest: Bytes)
    requires shared <= |e.key| && |e.key| + |e.value| < POW32
    ensures ParseHeader(EntryBytes(shared, e) + rest) == Some(Header(shared, |e.key| - shared, |e.value|, HeaderSize(shared, e)))
  {
    var tail := HeaderThen(shared, e, rest);
    HeaderBefore(shared, e, EntryBytes(shared, e) + rest, tail);
  }

  lemma {:induction false} HeaderBefore(shared: nat, e: KeyValue, b: Bytes, tail: Bytes)
    requires shared <= |e.key| && |e.key| + |e.value| < POW32
    requires b == Varint(shared) + (Varint(|e.key| - shared) + (Varint(|e.value|) + tail))
    ensures ParseHeader(b) == Some(Header(shared, |e.key| - shared, |e.value|, HeaderSize(shared, e)))
  {
    ParseHeaderRoundTrip(shared, |e.key| - shared, |e.value|, tail, b);
  }

  lemma HeaderThen(shared: nat, e: KeyValue, rest: Bytes) returns (tail: Bytes)
    requires shared <= |e.key|
    ensures EntryBytes(shared, e) + rest == Varint(shared) + (Varint(|e.key| - shared) + (Varint(|e.value|) + tail))
  {
    tail := e.key[shared..] + (e.value + rest);
    EntryThen(shared, e, rest);
  }

  lemma HasRoom(b: Bytes, h: Header)
    requires |b| >= 3 && ParseHeader(b) == Some(h)
    requires h.size + h.nonShared + h.valueLength <= |b| && h.nonShared + h.valueLength < POW32
    ensures ParseEntry(b) == Some(h)
  {
  }
}
