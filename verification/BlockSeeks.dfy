/** Seeking in encoded blocks of internal keys.  Tables and two-level iterators look for a key in a list of entries
    or of index keys; the iterator over the bytes of such a block finds the same place. */
module BlockSeeks {
  import opened Primitives
  import opened Coding
  import opened Comparators
  import BlockFormat
  import BlockCursors
  import BlockIterators
  import BuiltBlocks
  import Tables

  // A user key and then its trailer.
  function EncodeKey(k: IKey): Bytes {
    k.user + Fixed64(k.pack)
  }

  // A comparator that orders encoded internal keys as the keys are.
  ghost predicate RanksKeys(rank: BlockCursors.Comparator) {
    forall a: IKey, b: IKey :: a.pack < Pow256(8) && b.pack < Pow256(8) ==>
      (rank(EncodeKey(a)) < rank(EncodeKey(b)) <==> IBefore(a, b))
  }

  // A block of these keys, whatever their values.
  ghost predicate HoldsKeys(es: seq<BlockFormat.KeyValue>, keys: seq<IKey>) {
    |es| == |keys| && forall i :: 0 <= i < |keys| ==> keys[i].pack < Pow256(8) && es[i].key == EncodeKey(keys[i])
  }

  ghost predicate InOrder(keys: seq<IKey>) {
    forall i, j :: 0 <= i < j < |keys| ==> IBefore(keys[i], keys[j])
  }

  // p is the first place in a list of keys that is at or after k.
  ghost predicate IsFirstKey(keys: seq<IKey>, k: IKey, p: nat) {
    p <= |keys| && (forall i :: 0 <= i < p ==> IBefore(keys[i], k)) && (p < |keys| ==> IAtMost(k, keys[p]))
  }

  // Two keys that are encoded alike are the same.
  lemma EncodeKeyIsInjective(a: IKey, b: IKey)
    requires a.pack < Pow256(8) && b.pack < Pow256(8) && EncodeKey(a) == EncodeKey(b)
    ensures a == b
  {
    assert EncodeKey(a)[..|a.user|] == a.user && EncodeKey(a)[|a.user|..] == Fixed64(a.pack);
    assert EncodeKey(b)[..|b.user|] == b.user && EncodeKey(b)[|b.user|..] == Fixed64(b.pack);
    FixedRoundTrip(a.pack, 8);
    FixedRoundTrip(b.pack, 8);
  }

  lemma EncodedInOrder(rank: BlockCursors.Comparator, es: seq<BlockFormat.KeyValue>, keys: seq<IKey>)
    requires RanksKeys(rank) && HoldsKeys(es, keys) && InOrder(keys)
    ensures BuiltBlocks.Increasing(rank, es)
  {
    forall i, j | 0 <= i < j < |es|
      ensures rank(es[i].key) < rank(es[j].key)
    {
      assert IBefore(keys[i], keys[j]);
      assert rank(EncodeKey(keys[i])) < rank(EncodeKey(keys[j]));
    }
  }

  lemma FirstAmongBytes(rank: BlockCursors.Comparator, es: seq<BlockFormat.KeyValue>, keys: seq<IKey>, k: IKey, p: nat)
    requires RanksKeys(rank) && HoldsKeys(es, keys) && k.pack < Pow256(8)
    ensures BuiltBlocks.IsFirstAtOrAfter(rank, es, EncodeKey(k), p) <==> IsFirstKey(keys, k, p)
  {
    forall i | 0 <= i < |keys|
      ensures rank(es[i].key) < rank(EncodeKey(k)) <==> IBefore(keys[i], k)
      ensures IBefore(keys[i], k) <==> !IAtMost(k, keys[i])
    {
      assert es[i].key == EncodeKey(keys[i]);
      IBeforeIsTotal(keys[i], k);
    }
  }

  /** The block iterator, with its binary search over restart points and its scan of shared prefixes, finds in the bytes
      of a block what a search of the list of its keys finds. */
  method Seek(it: BlockIterators.Iter, ghost l: BlockFormat.Layout, ghost keys: seq<IKey>, k: IKey) returns (ghost p: nat)
    requires it.Ready() && it.status == BlockCursors.Fine && BuiltBlocks.Built(it.Contents(), l)
    requires RanksKeys(it.rank) && HoldsKeys(l.entries, keys) && InOrder(keys) && k.pack < Pow256(8)
    modifies it
    ensures it.Valid() && BuiltBlocks.Standing(it.Contents(), l, it.Place(), p) && IsFirstKey(keys, k, p)
  {
    EncodedInOrder(it.rank, l.entries, keys);
    it.Seek(EncodeKey(k));
    p :| BuiltBlocks.FoundAt(it.Contents(), l, it.Place(), it.rank, EncodeKey(k), p);
    FirstAmongBytes(it.rank, l.entries, keys, k, p);
  }

  // There is one such place.
  lemma FirstKeyIsOne(keys: seq<IKey>, k: IKey, p: nat, q: nat)
    requires InOrder(keys) && IsFirstKey(keys, k, p) && IsFirstKey(keys, k, q)
    ensures p == q
  {
    if p < |keys| {
      IBeforeIsTotal(keys[p], k);
    }
    if q < |keys| {
      IBeforeIsTotal(keys[q], k);
    }
  }

  function BlockKeys(es: seq<Tables.Entry>): (keys: seq<IKey>)
    ensures |keys| == |es| && forall i :: 0 <= i < |es| ==> keys[i] == es[i].key
  {
    seq(|es|, i requires 0 <= i < |es| => es[i].key)
  }

  /** So in a data block it stands where a search of the entries ends. */
  lemma FirstInBlock(es: seq<Tables.Entry>, k: IKey, p: nat)
    ensures IsFirstKey(BlockKeys(es), k, p)
       <==> p <= |es| && Tables.AllBefore(es, k, p) && (p < |es| ==> IAtMost(k, es[p].key))
  {
    var keys := BlockKeys(es);
    if IsFirstKey(keys, k, p) {
      assert forall i :: 0 <= i < p ==> IBefore(keys[i], k);
    }
  }
}
