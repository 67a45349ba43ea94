/** Building a table of blocks with an index of shortened keys, and looking a key up in it. */
module Tables {
  import opened Primitives
  import opened Coding
  import opened Comparators
  import opened BloomFilters
  import opened FilterBlocks

  datatype Entry = Entry(key: IKey, value: Bytes)

  datatype Handle = Handle(offset: nat, size: nat)

  // A data block in the file.
  datatype Written = Written(handle: Handle, entries: seq<Entry>)

  datatype IndexEntry = IndexEntry(key: IKey, handle: Handle)

  // ----- Order -----

  predicate Sorted(es: seq<Entry>) {
    forall i, j :: 0 <= i < j < |es| ==> IBefore(es[i].key, es[j].key)
  }

  function Last(es: seq<Entry>): IKey
    requires es != []
  {
    es[|es| - 1].key
  }

  // A key from the last entry of a block on, before the first entry after it: the last key itself,
  // or one whose user key comes before that of any later entry.
  predicate Separates(sep: IKey, last: IKey, next: IKey) {
    && IAtMost(last, sep) && IBefore(sep, next)
    && (sep == last || Less(sep.user, next.user))
  }

  // Blocks in order, none of them empty.
  predicate Ordered(blocks: seq<Written>) {
    && (forall i :: 0 <= i < |blocks| ==> blocks[i].entries != [] && Sorted(blocks[i].entries))
    && (forall i :: 0 < i < |blocks| ==> IBefore(Last(blocks[i - 1].entries), blocks[i].entries[0].key))
  }

  // ----- Building -----

  const BLOCK_TRAILER_SIZE: nat := 5

  // The first entry after block i.
  function Next(written: seq<Written>, dataBlock: seq<Entry>, i: nat): Entry
    requires i < |written| && Ordered(written) && (i + 1 == |written| ==> dataBlock != [])
  {
    if i + 1 < |written| then written[i + 1].entries[0] else dataBlock[0]
  }

  // Block i has its index entry.
  ghost predicate IndexedAt(written: seq<Written>, dataBlock: seq<Entry>, index: seq<IndexEntry>, i: nat)
    requires i < |index| <= |written| && Ordered(written) && (i + 1 == |written| ==> dataBlock != [])
  {
    && index[i].handle == written[i].handle
    && Separates(index[i].key, Last(written[i].entries), Next(written, dataBlock, i).key)
  }

  // All entries are in order, and all blocks but one that waits for the next key are indexed.
  ghost predicate InOrder(written: seq<Written>, dataBlock: seq<Entry>, index: seq<IndexEntry>, pending: bool) {
    && Ordered(written) && Sorted(dataBlock)
    && (written != [] && dataBlock != [] ==> IBefore(Last(written[|written| - 1].entries), dataBlock[0].key))
    && |index| == |written| - (if pending then 1 else 0)
    && (if pending then dataBlock == [] else written == [] || dataBlock != [])
    && forall i: nat :: i < |index| ==> IndexedAt(written, dataBlock, index, i)
  }

  // The key of the last entry.
  ghost predicate EndsWith(written: seq<Written>, dataBlock: seq<Entry>, key: IKey)
    requires Ordered(written)
  {
    if dataBlock != [] then key == Last(dataBlock)
    else written != [] && key == Last(written[|written| - 1].entries)
  }

  // The filter for a block at this offset has the key.
  ghost predicate Knows(groups: seq<seq<Bytes>>, pending: seq<Bytes>, offset: nat, user: Bytes) {
    var g := offset / FILTER_BASE;
    g <= |groups| && user in if g < |groups| then groups[g] else pending
  }

  ghost predicate KnowsAll(groups: seq<seq<Bytes>>, pending: seq<Bytes>, offset: nat, es: seq<Entry>) {
    forall e :: e in es ==> Knows(groups, pending, offset, e.key.user)
  }

  ghost predicate FilterKeeps(groups: seq<seq<Bytes>>, pending: seq<Bytes>, written: seq<Written>) {
    forall i: nat :: i < |written| ==> KnowsAll(groups, pending, written[i].handle.offset, written[i].entries)
  }

  lemma AddKeepsOrder(written: seq<Written>, dataBlock: seq<Entry>, index: seq<IndexEntry>, pending: bool,
                      last: IKey, e: Entry, added: seq<IndexEntry>)
    requires InOrder(written, dataBlock, index, pending)
    requires written != [] || dataBlock != [] ==> EndsWith(written, dataBlock, last) && IBefore(last, e.key)
    requires |added| == if pending then 1 else 0
    requires pending ==> added[0].handle == written[|written| - 1].handle
    requires pending ==> added[0].key == last || (Less(last.user, added[0].key.user) && Less(added[0].key.user, e.key.user))
    ensures InOrder(written, dataBlock + [e], index + added, false)
    ensures EndsWith(written, dataBlock + [e], e.key)
  {
    SortedOneMore(dataBlock, e);
    forall i: nat | i < |index + added| ensures IndexedAt(written, dataBlock + [e], index + added, i) {
      if i < |index| {
        assert IndexedAt(written, dataBlock, index, i);
      }
    }
  }

  lemma SortedOneMore(es: seq<Entry>, e: Entry)
    requires Sorted(es) && (es != [] ==> IBefore(Last(es), e.key))
    ensures Sorted(es + [e])
  {
    forall i | 0 <= i < |es| ensures IBefore(es[i].key, e.key) {
      if i < |es| - 1 {
        IBeforeIsTransitive(es[i].key, Last(es), e.key);
      }
    }
  }

  lemma FlushKeepsOrder(written: seq<Written>, dataBlock: seq<Entry>, index: seq<IndexEntry>, handle: Handle)
    requires InOrder(written, dataBlock, index, false) && dataBlock != []
    ensures InOrder(written + [Written(handle, dataBlock)], [], index, true)
    ensures EndsWith(written + [Written(handle, dataBlock)], [], Last(dataBlock))
    ensures Contents(written + [Written(handle, dataBlock)], []) == Contents(written, dataBlock)
  {
    var w := written + [Written(handle, dataBlock)];
    assert w[..|written|] == written;
    forall i: nat | i < |index| ensures IndexedAt(w, [], index, i) {
      assert IndexedAt(written, dataBlock, index, i);
    }
  }

  // The filters know all keys there are.
  ghost predicate FilterInv(groups: seq<seq<Bytes>>, pending: seq<Bytes>, offset: nat, written: seq<Written>, dataBlock: seq<Entry>) {
    && |groups| == offset / FILTER_BASE
    && FilterKeeps(groups, pending, written) && KnowsAll(groups, pending, offset, dataBlock)
  }

  lemma AddKeepsFilter(groups: seq<seq<Bytes>>, pending: seq<Bytes>, offset: nat, written: seq<Written>, dataBlock: seq<Entry>, e: Entry)
    requires FilterInv(groups, pending, offset, written, dataBlock)
    ensures FilterInv(groups, pending + [e.key.user], offset, written, dataBlock + [e])
  {
    var more := pending + [e.key.user];
    assert forall off: nat, user: Bytes :: Knows(groups, pending, off, user) ==> Knows(groups, more, off, user);
    forall i: nat | i < |written| ensures KnowsAll(groups, more, written[i].handle.offset, written[i].entries) {
      assert KnowsAll(groups, pending, written[i].handle.offset, written[i].entries);
    }
    assert more[|pending|] == e.key.user;
  }

  // What filters know they still know when a block starts further on.
  lemma FlushKeepsFilter(groups: seq<seq<Bytes>>, pending: seq<Bytes>, moreGroups: seq<seq<Bytes>>, rest: seq<Bytes>,
                         offset: nat, next: nat, written: seq<Written>, w: Written)
    requires FilterInv(groups, pending, offset, written, w.entries) && w.handle.offset == offset
    requires groups <= moreGroups && |moreGroups| == next / FILTER_BASE
    requires if |groups| == |moreGroups| then rest == pending else moreGroups[|groups|] == pending
    ensures FilterInv(moreGroups, rest, next, written + [w], [])
  {
    assert forall off: nat, user: Bytes :: Knows(groups, pending, off, user) ==> Knows(moreGroups, rest, off, user);
    var all := written + [w];
    forall i: nat | i < |all| ensures KnowsAll(moreGroups, rest, all[i].handle.offset, all[i].entries) {
      if i < |written| {
        assert KnowsAll(groups, pending, written[i].handle.offset, written[i].entries);
      }
    }
  }

  // Entries, index keys, the handle that still lacks one, and the last key of all.
  ghost predicate InPlace(written: seq<Written>, dataBlock: seq<Entry>, index: seq<IndexEntry>, pending: bool, handle: Handle,
                          numEntries: nat, last: IKey)
  {
    && InOrder(written, dataBlock, index, pending)
    && (pending ==> handle == written[|written| - 1].handle)
    && (numEntries == 0 <==> written == [] && dataBlock == [])
    && (numEntries > 0 ==> EndsWith(written, dataBlock, last))
  }

  lemma {:induction false} AddKeepsPlace(written: seq<Written>, dataBlock: seq<Entry>, index: seq<IndexEntry>, pending: bool, handle: Handle,
                                         numEntries: nat, last: IKey, e: Entry, added: seq<IndexEntry>)
    requires InPlace(written, dataBlock, index, pending, handle, numEntries, last) && (numEntries > 0 ==> IBefore(last, e.key))
    requires |added| == if pending then 1 else 0
    requires pending ==> added[0].handle == handle
    requires pending ==> added[0].key == last || (Less(last.user, added[0].key.user) && Less(added[0].key.user, e.key.user))
    ensures InPlace(written, dataBlock + [e], index + added, false, handle, numEntries + 1, e.key)
    ensures Contents(written, dataBlock + [e]) == Contents(written, dataBlock) + [e]
  {
    AddKeepsOrder(written, dataBlock, index, pending, last, e, added);
  }

  lemma {:induction false} FlushKeepsPlace(written: seq<Written>, dataBlock: seq<Entry>, index: seq<IndexEntry>, pending: bool,
                                           handle: Handle, numEntries: nat, last: IKey, next: Handle)
    requires InPlace(written, dataBlock, index, pending, handle, numEntries, last) && dataBlock != []
    ensures InPlace(written + [Written(next, dataBlock)], [], index, true, next, numEntries, last)
    ensures Contents(written + [Written(next, dataBlock)], []) == Contents(written, dataBlock)
  {
    FlushKeepsOrder(written, dataBlock, index, next);
  }

  class TableBuilder {
    const filterBlock: FilterBlockBuilder?
    const sizeOf: seq<Entry> -> nat  // of a finished block
    const isFull: seq<Entry> -> bool  // has a block reached its size?
    var written: seq<Written>  // the file
    var offset: nat
    var dataBlock: seq<Entry>
    var index: seq<IndexEntry>
    var lastKey: IKey
    var numEntries: nat
    var pendingIndexEntry: bool
    var pendingHandle: Handle

    ghost predicate Valid()
      reads this, filterBlock
    {
      && InPlace(written, dataBlock, index, pendingIndexEntry, pendingHandle, numEntries, lastKey)
      && FilterKnows(offset, written, dataBlock)
    }

    ghost predicate FilterKnows(offset: nat, written: seq<Written>, dataBlock: seq<Entry>)
      reads filterBlock
    {
      filterBlock != null ==>
        filterBlock.Valid() && FilterInv(filterBlock.groups, filterBlock.pending, offset, written, dataBlock)
    }

    constructor (filterBlock: FilterBlockBuilder?, sizeOf: seq<Entry> -> nat, isFull: seq<Entry> -> bool)
      requires filterBlock != null ==> filterBlock.Valid() && filterBlock.groups == []
      modifies filterBlock
      ensures Valid() && written == [] && dataBlock == []
      ensures this.filterBlock == filterBlock
    {
      this.filterBlock, this.sizeOf, this.isFull := filterBlock, sizeOf, isFull;
      written, offset, dataBlock, index := [], 0, [], [];
      lastKey, numEntries := IKey([], 0), 0;
      pendingIndexEntry, pendingHandle := false, Handle(0, 0);
      new;
      if filterBlock != null {
        filterBlock.StartBlock(0);
      }
    }

    /** Adds an entry after all others, and closes the block if it is full. */
    method Add(key: IKey, value: Bytes)
      requires Valid() && (numEntries > 0 ==> IBefore(lastKey, key))
      modifies this, filterBlock
      ensures Valid()
      ensures Contents(written, dataBlock) == old(Contents(written, dataBlock)) + [Entry(key, value)]
    {
      Append(Entry(key, value));
      if isFull(dataBlock) {
        Flush();
      }
    }

    // The last block's index key is chosen now that the first key after it is known.
    method Append(e: Entry)
      requires Valid() && (numEntries > 0 ==> IBefore(lastKey, e.key))
      modifies this, filterBlock
      ensures Valid()
      ensures Contents(written, dataBlock) == old(Contents(written, dataBlock)) + [e]
    {
      var added := SeparateFrom(e.key);
      AddKeepsPlace(written, dataBlock, index, pendingIndexEntry, pendingHandle, numEntries, lastKey, e, added);
      index := index + added;
      pendingIndexEntry := false;
      TellFilter(e);
      lastKey := e.key;
      numEntries := numEntries + 1;
      dataBlock := dataBlock + [e];
    }

    // The policy for internal keys looks at user keys only.
    method TellFilter(e: Entry)
      requires FilterKnows(offset, written, dataBlock)
      modifies filterBlock
      ensures FilterKnows(offset, written, dataBlock + [e])
    {
      if filterBlock != null {
        AddKeepsFilter(filterBlock.groups, filterBlock.pending, offset, written, dataBlock, e);
        filterBlock.AddKey(e.key.user);
      }
    }

    // The index entry of the last block, if it still lacks one, with a key before the first of the next block.
    method SeparateFrom(key: IKey) returns (added: seq<IndexEntry>)
      requires InOrder(written, dataBlock, index, pendingIndexEntry)
      requires pendingIndexEntry ==> EndsWith(written, dataBlock, lastKey) && IBefore(lastKey, key)
      ensures |added| == if pendingIndexEntry then 1 else 0
      ensures pendingIndexEntry ==> added[0].handle == pendingHandle
      ensures pendingIndexEntry ==>
                added[0].key == lastKey || (Less(lastKey.user, added[0].key.user) && Less(added[0].key.user, key.user))
    {
      added := [];
      if pendingIndexEntry {
        var sep := FindShortestInternalSeparator(lastKey, key);
        added := [IndexEntry(sep, pendingHandle)];
      }
    }

    method Flush()
      requires Valid()
      modifies this, filterBlock
      ensures Valid() && dataBlock == [] && Contents(written, dataBlock) == old(Contents(written, dataBlock))
      ensures numEntries == old(numEntries) && (numEntries > 0 ==> pendingIndexEntry)
    {
      if |dataBlock| == 0 {
        return;
      }
      var handle := Handle(offset, sizeOf(dataBlock));
      FlushKeepsPlace(written, dataBlock, index, pendingIndexEntry, pendingHandle, numEntries, lastKey, handle);
      TellFilterOfBlock(handle);
      pendingHandle := handle;
      offset := offset + handle.size + BLOCK_TRAILER_SIZE;
      written := written + [Written(handle, dataBlock)];
      dataBlock := [];
      pendingIndexEntry := true;
    }

    method TellFilterOfBlock(handle: Handle)
      requires FilterKnows(offset, written, dataBlock) && handle.offset == offset
      modifies filterBlock
      ensures FilterKnows(offset + handle.size + BLOCK_TRAILER_SIZE, written + [Written(handle, dataBlock)], [])
    {
      if filterBlock != null {
        StartNextBlock(filterBlock, offset, offset + handle.size + BLOCK_TRAILER_SIZE, written, Written(handle, dataBlock));
      }
    }

    /** Finishes the last block, whose index key need not be before anything, the filter and the index. */
    method Finish() returns (t: Table)
      requires Valid()
      modifies this, filterBlock
      ensures t.Valid() && Concat(t.blocks) == old(Contents(written, dataBlock))
      ensures t.filter.Some? <==> filterBlock != null
      ensures filterBlock != null && |t.filter.value| < POW32 ==> t.FilterIsComplete(filterBlock.policy.hash)
    {
      Flush();
      var filter: Option<Bytes> := None;
      if filterBlock != null {
        var contents := FinishFilter(filterBlock, offset, written);
        filter := Some(contents);
      }
      t := FinishIndex(filter);
      NothingAfter(written);
    }

    method FinishIndex(filter: Option<Bytes>) returns (t: Table)
      requires InOrder(written, [], index, pendingIndexEntry)
      requires written != [] ==> pendingIndexEntry && EndsWith(written, [], lastKey)
      requires pendingIndexEntry ==> pendingHandle == written[|written| - 1].handle
      modifies this`index
      ensures t.Valid() && t.blocks == written && t.filter == filter
    {
      var added: seq<IndexEntry> := [];
      if pendingIndexEntry {
        var last := FindShortInternalSuccessor(lastKey);
        added := [IndexEntry(last, pendingHandle)];
      }
      FinishKeepsOrder(written, index, pendingIndexEntry, lastKey, added, filter);
      index := index + added;
      t := Table(written, index, filter);
    }
  }

  lemma NothingAfter(written: seq<Written>)
    ensures Contents(written, []) == Concat(written)
  {
  }

  // Tells the filter block where the next data block starts.
  method StartNextBlock(filterBlock: FilterBlockBuilder, ghost offset: nat, next: nat, ghost written: seq<Written>, ghost w: Written)
    requires filterBlock.Valid() && FilterInv(filterBlock.groups, filterBlock.pending, offset, written, w.entries)
    requires w.handle.offset == offset <= next
    modifies filterBlock
    ensures filterBlock.Valid() && FilterInv(filterBlock.groups, filterBlock.pending, next, written + [w], [])
  {
    ghost var groups, pending := filterBlock.groups, filterBlock.pending;
    filterBlock.StartBlock(next);
    FlushKeepsFilter(groups, pending, filterBlock.groups, filterBlock.pending, offset, next, written, w);
  }

  method FinishFilter(filterBlock: FilterBlockBuilder, ghost offset: nat, ghost written: seq<Written>) returns (contents: Bytes)
    requires filterBlock.Valid() && FilterInv(filterBlock.groups, filterBlock.pending, offset, written, [])
    modifies filterBlock
    ensures |contents| < POW32 ==> FilterMatches(filterBlock.policy.hash, contents, written)
  {
    ghost var groups, pending := filterBlock.groups, filterBlock.pending;
    contents := filterBlock.Finish();
    if |contents| < POW32 {
      FilterKnowsAll(filterBlock.policy, filterBlock.result, filterBlock.filterOffsets, filterBlock.groups, groups, pending, written);
    }
  }

  lemma FinishKeepsOrder(written: seq<Written>, index: seq<IndexEntry>, pending: bool, last: IKey, added: seq<IndexEntry>,
                         filter: Option<Bytes>)
    requires InOrder(written, [], index, pending) && (written != [] ==> pending && EndsWith(written, [], last))
    requires |added| == if pending then 1 else 0
    requires pending ==> added[0].handle == written[|written| - 1].handle
    requires pending ==> added[0].key == last || Less(last.user, added[0].key.user)
    ensures Table(written, index + added, filter).Valid()
  {
    var t := Table(written, index + added, filter);
    forall i: nat | i < |t.index| ensures t.IndexedAt(i) {
      if i < |index| {
        assert IndexedAt(written, [], index, i);
      }
    }
  }

  // The filter may match every key of every block.
  ghost predicate FilterMatches(hash: Hash, contents: Bytes, written: seq<Written>) {
    forall i: nat, e :: i < |written| && e in written[i].entries ==>
      match FilterFor(contents, written[i].handle.offset)
      case Filter(b) => MayMatch(hash, e.key.user, b)
      case Nothing => false
      case Anything => true
  }

  // A finished filter block matches every key its builder knows.
  lemma FilterKnowsAll(policy: BloomFilterPolicy, result: Bytes, offsets: seq<nat>, all: seq<seq<Bytes>>,
                       groups: seq<seq<Bytes>>, pending: seq<Bytes>, written: seq<Written>)
    requires Filters(policy, result, offsets, all) && |FilterBytes(result, offsets)| < POW32
    requires all == if pending == [] then groups else groups + [pending]
    requires FilterKeeps(groups, pending, written)
    ensures FilterMatches(policy.hash, FilterBytes(result, offsets), written)
  {
    forall i: nat, e | i < |written| && e in written[i].entries
      ensures
        var found := FilterFor(FilterBytes(result, offsets), written[i].handle.offset);
        found.Filter? && MayMatch(policy.hash, e.key.user, found.b)
    {
      assert KnowsAll(groups, pending, written[i].handle.offset, written[i].entries);
      assert Knows(groups, pending, written[i].handle.offset, e.key.user);
      NoKeyIsLost(policy, result, offsets, all, written[i].handle.offset, e.key.user);
    }
  }

  datatype Table = Table(blocks: seq<Written>, index: seq<IndexEntry>, filter: Option<Bytes>) {
    ghost predicate Valid() {
      && Ordered(blocks) && |index| == |blocks|
      && forall i: nat :: i < |index| ==> IndexedAt(i)
    }

    ghost predicate IndexedAt(i: nat)
      requires i < |index| == |blocks| && Ordered(blocks)
    {
      && index[i].handle == blocks[i].handle && IAtMost(Last(blocks[i].entries), index[i].key)
      && (i + 1 < |blocks| ==> Separates(index[i].key, Last(blocks[i].entries), blocks[i + 1].entries[0].key))
    }

    ghost predicate FilterIsComplete(hash: Hash) {
      filter.Some? ==> FilterMatches(hash, filter.value, blocks)
    }
  }

  function Contents(written: seq<Written>, dataBlock: seq<Entry>): seq<Entry> {
    Concat(written) + dataBlock
  }

  function Concat(written: seq<Written>): seq<Entry> {
    if written == [] then [] else Concat(written[..|written| - 1]) + written[|written| - 1].entries
  }

  // ----- Looking up -----

  // Entry j of block i is the first in the table at or after k.
  ghost predicate IsFirst(t: Table, k: IKey, i: nat, j: nat)
    requires t.Valid()
  {
    && i < |t.blocks| && j < |t.blocks[i].entries|
    && IAtMost(k, t.blocks[i].entries[j].key)
    && AllBefore(t.blocks[i].entries, k, j)
    && forall m: nat :: m < i ==> AllBefore(t.blocks[m].entries, k, |t.blocks[m].entries|)
  }

  // The first n entries come before k.
  ghost predicate AllBefore(es: seq<Entry>, k: IKey, n: nat)
    requires n <= |es|
  {
    forall j :: 0 <= j < n ==> IBefore(es[j].key, k)
  }

  // The first entry of a sorted block at or after k, as its iterator finds it.
  method SeekInBlock(es: seq<Entry>, k: IKey) returns (j: nat)
    ensures j <= |es| && AllBefore(es, k, j) && (j < |es| ==> IAtMost(k, es[j].key))
  {
    j := 0;
    while j < |es| && IBefore(es[j].key, k)
      invariant j <= |es| && AllBefore(es, k, j)
    {
      j := j + 1;
    }
    if j < |es| {
      IBeforeIsTotal(es[j].key, k);
    }
  }

  // The first of some index keys at or after k.
  method SeekKeys(keys: seq<IKey>, k: IKey) returns (i: nat)
    ensures i <= |keys| && (forall m :: 0 <= m < i ==> IBefore(keys[m], k)) && (i < |keys| ==> IAtMost(k, keys[i]))
  {
    i := 0;
    while i < |keys| && IBefore(keys[i], k)
      invariant i <= |keys| && forall m :: 0 <= m < i ==> IBefore(keys[m], k)
    {
      i := i + 1;
    }
    if i < |keys| {
      IBeforeIsTotal(keys[i], k);
    }
  }

  function KeysOf(index: seq<IndexEntry>): (keys: seq<IKey>)
    ensures |keys| == |index| && forall i :: 0 <= i < |index| ==> keys[i] == index[i].key
  {
    seq(|index|, i requires 0 <= i < |index| => index[i].key)
  }

  /** What is passed on of a table for a key: never anything but the first entry at or after it,
      and that entry whenever it has the same user key. */
  method InternalGet(t: Table, policy: BloomFilterPolicy, k: IKey) returns (saved: Option<Entry>)
    requires t.Valid() && t.FilterIsComplete(policy.hash)
    ensures saved.Some? ==> exists i: nat, j: nat :: IsFirst(t, k, i, j) && saved.value == t.blocks[i].entries[j]
    ensures forall i: nat, j: nat :: IsFirst(t, k, i, j) && t.blocks[i].entries[j].key.user == k.user ==> saved == Some(t.blocks[i].entries[j])
  {
    var keys := KeysOf(t.index);
    var i := SeekKeys(keys, k);
    assert forall m :: 0 <= m < i ==> t.index[m].key == keys[m];
    BlocksBefore(t, k, i);
    if i == |t.index| {
      forall x: nat, y: nat | x < |t.blocks| && y < |t.blocks[x].entries| ensures !IsFirst(t, k, x, y) {
        NotFirst(t, k, x, y);
      }
      return None;
    }
    if t.filter.Some? {
      var filter := new FilterBlockReader(policy, t.filter.value);
      var mayMatch := filter.KeyMayMatch(t.index[i].handle.offset, k.user);
      if !mayMatch {
        OnlyInBlock(t, k, i);
        NoMatchMeansOtherUserKey(t, policy.hash, k.user, i);
        return None;
      }
    }
    OnlyInBlock(t, k, i);
    var j := SeekInBlock(t.blocks[i].entries, k);
    if j < |t.blocks[i].entries| {
      assert IsFirst(t, k, i, j);
      FirstIsUnique(t, k, i, j);
      saved := Some(t.blocks[i].entries[j]);
    } else {
      forall y: nat | y < |t.blocks[i].entries| ensures !IsFirst(t, k, i, y) {
        NotFirst(t, k, i, y);
      }
      saved := None;
    }
  }

  lemma NoMatchMeansOtherUserKey(t: Table, hash: Hash, user: Bytes, i: nat)
    requires t.Valid() && t.FilterIsComplete(hash) && t.filter.Some? && i < |t.blocks|
    requires match FilterFor(t.filter.value, t.index[i].handle.offset)
             case Filter(b) => !MayMatch(hash, user, b)
             case Nothing => true
             case Anything => false
    ensures forall j :: 0 <= j < |t.blocks[i].entries| ==> t.blocks[i].entries[j].key.user != user
  {
    assert t.IndexedAt(i);
    forall j | 0 <= j < |t.blocks[i].entries| ensures t.blocks[i].entries[j].key.user != user {
      assert t.blocks[i].entries[j] in t.blocks[i].entries;
    }
  }

  // Blocks whose index key comes before k are all before k.
  lemma BlocksBefore(t: Table, k: IKey, i: nat)
    requires t.Valid() && i <= |t.index| && forall m :: 0 <= m < i ==> IBefore(t.index[m].key, k)
    ensures forall m: nat :: m < i ==> AllBefore(t.blocks[m].entries, k, |t.blocks[m].entries|)
  {
    forall m: nat, j: nat | m < i && j < |t.blocks[m].entries| ensures IBefore(t.blocks[m].entries[j].key, k) {
      assert t.IndexedAt(m);
      AtMostThenBefore(t.blocks[m].entries[j].key, Last(t.blocks[m].entries), t.index[m].key, k);
    }
  }

  lemma AtMostThenBefore(a: IKey, b: IKey, c: IKey, d: IKey)
    requires IAtMost(a, b) && IAtMost(b, c) && IBefore(c, d)
    ensures IBefore(a, d)
  {
    if b != c {
      IBeforeIsTransitive(b, c, d);
    }
    if a != b {
      IBeforeIsTransitive(a, b, d);
    }
  }

  lemma NotFirst(t: Table, k: IKey, x: nat, y: nat)
    requires t.Valid() && x < |t.blocks| && y < |t.blocks[x].entries|
    requires AllBefore(t.blocks[x].entries, k, |t.blocks[x].entries|)
    ensures !IsFirst(t, k, x, y)
  {
    IBeforeIsTotal(t.blocks[x].entries[y].key, k);
  }

  // The first entry at or after k is in block i, if it has k's user key.
  lemma OnlyInBlock(t: Table, k: IKey, i: nat)
    requires t.Valid() && i < |t.index| && IAtMost(k, t.index[i].key)
    requires forall m: nat :: m < i ==> AllBefore(t.blocks[m].entries, k, |t.blocks[m].entries|)
    ensures forall x: nat, y: nat :: IsFirst(t, k, x, y) && t.blocks[x].entries[y].key.user == k.user ==> x == i
  {
    forall x: nat, y: nat | IsFirst(t, k, x, y) && t.blocks[x].entries[y].key.user == k.user ensures x == i {
      if x < i {
        NotFirst(t, k, x, y);
      } else if i < x {
        LaterHasOtherUserKey(t, k, i, x, y);
      }
    }
  }

  lemma LaterHasOtherUserKey(t: Table, k: IKey, i: nat, x: nat, y: nat)
    requires t.Valid() && i < x < |t.blocks| && y < |t.blocks[x].entries| && IAtMost(k, t.index[i].key)
    requires AllBefore(t.blocks[i].entries, k, |t.blocks[i].entries|)
    ensures t.blocks[x].entries[y].key.user != k.user
  {
    var sep, next, key := t.index[i].key, t.blocks[i + 1].entries[0].key, t.blocks[x].entries[y].key;
    assert t.IndexedAt(i);
    IBeforeIsTotal(Last(t.blocks[i].entries), k);
    FirstOfLater(t, i + 1, x, y);
    if k.user != sep.user {
      LessIsTransitive(k.user, sep.user, next.user);
    }
    if next.user != key.user {
      LessIsTransitive(k.user, next.user, key.user);
    }
    LessIsTotal(k.user, k.user);
  }

  lemma {:induction false} FirstOfLater(t: Table, i: nat, x: nat, y: nat)
    requires t.Valid() && i <= x < |t.blocks| && y < |t.blocks[x].entries|
    ensures IAtMost(t.blocks[i].entries[0].key, t.blocks[x].entries[y].key)
  {
    var first, key := t.blocks[x].entries[0].key, t.blocks[x].entries[y].key;
    if i < x {
      var last := Last(t.blocks[x - 1].entries);
      FirstOfLater(t, i, x - 1, |t.blocks[x - 1].entries| - 1);
      AtMostThenBefore(t.blocks[i].entries[0].key, t.blocks[i].entries[0].key, last, first);
      if y > 0 {
        IBeforeIsTransitive(t.blocks[i].entries[0].key, first, key);
      }
    }
  }

  lemma FirstIsUnique(t: Table, k: IKey, i: nat, j: nat)
    requires t.Valid() && IsFirst(t, k, i, j)
    ensures forall x: nat, y: nat :: IsFirst(t, k, x, y) ==> x == i && y == j
  {
    forall x: nat, y: nat | IsFirst(t, k, x, y) ensures x == i && y == j {
      IBeforeIsTotal(t.blocks[x].entries[y].key, k);
      IBeforeIsTotal(t.blocks[i].entries[j].key, k);
    }
  }
}
