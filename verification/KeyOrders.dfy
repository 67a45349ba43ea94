/** Internal keys as the bytes of tables have them, and as the database is modelled on them: the same order. */
module KeyOrders {
  import opened Primitives
  import opened Coding
  import InternalKeys
  import Comparators

  // A number for each user key that keeps the order of the bytes.
  ghost predicate Ranks(rank: Bytes -> InternalKeys.UserKey) {
    forall a: Bytes, b: Bytes :: rank(a) < rank(b) <==> Comparators.Less(a, b)
  }

  // The trailer of a key taken apart.
  function Abstract(rank: Bytes -> InternalKeys.UserKey, k: Comparators.IKey): InternalKeys.InternalKey
    requires k.pack < Pow256(8)
  {
    Pow256Widths();
    InternalKeys.InternalKey(rank(k.user), k.pack / 256, k.pack % 256)
  }

  /** Comparing the packed trailers of keys with bytewise user keys is comparing their parts. */
  lemma SameOrder(rank: Bytes -> InternalKeys.UserKey, a: Comparators.IKey, b: Comparators.IKey)
    requires Ranks(rank) && a.pack < Pow256(8) && b.pack < Pow256(8)
    ensures Comparators.IBefore(a, b) <==> InternalKeys.Before(Abstract(rank, a), Abstract(rank, b))
  {
    Comparators.LessIsTotal(a.user, b.user);
    assert rank(a.user) < rank(b.user) <==> Comparators.Less(a.user, b.user);
    assert rank(b.user) < rank(a.user) <==> Comparators.Less(b.user, a.user);
    assert a.pack == a.pack / 256 * 256 + a.pack % 256 && b.pack == b.pack / 256 * 256 + b.pack % 256;
  }
}
