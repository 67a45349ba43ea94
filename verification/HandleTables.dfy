/** The hash table of a cache: buckets of handles, rehashed as it grows. */
module HandleTables {
  import opened Primitives

  type Hash = Bytes -> nat

  // A cache entry, as far as it never changes; id is its address.
  datatype Handle = Handle(id: nat, key: Bytes, hash: nat)

  // hash & (length - 1), for a length that is a power of two.
  function Slot(hash: nat, length: nat): (i: nat)
    requires length > 0
    ensures i < length
    decreases length
  {
    if length == 1 then 0 else hash % 2 + 2 * Slot(hash / 2, length / 2)
  }

  class HandleTable {
    var elems: nat
    var list: seq<seq<Handle>>
    ghost var contents: set<Handle>

    ghost predicate Valid()
      reads this
    {
      && |list| >= 4 && elems == |contents|
      && (forall h :: h in contents <==> Has(list, h))
      && (forall i :: 0 <= i < |list| ==> InBucket(list, i))
      && (forall g, h :: g in contents && h in contents && g.key == h.key && g.hash == h.hash ==> g == h)
    }

    constructor ()
      ensures Valid() && contents == {}
    {
      elems, list, contents := 0, seq(4, _ => []), {};
    }

    // Where a handle for the key is in its chain, or the end of the chain.
    method FindPointer(key: Bytes, hash: nat) returns (p: nat)
      requires |list| > 0
      ensures var chain := list[Slot(hash, |list|)];
              && p <= |chain| && (p < |chain| ==> chain[p].hash == hash && chain[p].key == key)
              && forall i :: 0 <= i < p ==> chain[i].hash != hash || chain[i].key != key
    {
      var chain := list[Slot(hash, |list|)];
      p := 0;
      while p < |chain| && (chain[p].hash != hash || chain[p].key != key)
        invariant p <= |chain| && forall i :: 0 <= i < p ==> chain[i].hash != hash || chain[i].key != key
      {
        p := p + 1;
      }
    }

    method Lookup(key: Bytes, hash: nat) returns (r: Option<Handle>)
      requires Valid()
      ensures match r
              case None => forall h :: h in contents ==> h.key != key || h.hash != hash
              case Some(h) => h in contents && h.key == key && h.hash == hash
    {
      var p := FindPointer(key, hash);
      var chain := list[Slot(hash, |list|)];
      if p < |chain| {
        assert Has(list, chain[p]);
        return Some(chain[p]);
      }
      return None;
    }

    /** Puts a handle in the place of any other one for its key, which is returned. */
    method Insert(h: Handle) returns (old_: Option<Handle>)
      requires Valid() && h !in contents
      modifies this
      ensures Valid()
      ensures match old_
              case None => contents == old(contents) + {h} && forall g :: g in old(contents) ==> g.key != h.key || g.hash != h.hash
              case Some(g) => g in old(contents) && g.key == h.key && g.hash == h.hash && contents == old(contents) - {g} + {h}
    {
      var p := FindPointer(h.key, h.hash);
      var b := Slot(h.hash, |list|);
      var chain := list[b];
      if p < |chain| {
        assert Has(list, chain[p]);
        old_ := Some(chain[p]);
        Replace(h, b, p);
      } else {
        old_ := None;
        Append(h, b);
        if elems > |list| {
          Resize();
        }
      }
    }

    method Replace(h: Handle, b: nat, p: nat)
      requires Valid() && h !in contents && b == Slot(h.hash, |list|) && p < |list[b]|
      requires list[b][p].key == h.key && list[b][p].hash == h.hash
      modifies this
      ensures Valid() && contents == old(contents - {list[b][p]}) + {h}
    {
      assert Has(list, list[b][p]);
      ReplaceInChain(list, b, p, h);
      contents := contents - {list[b][p]} + {h};
      list := list[b := list[b][p := h]];
    }

    method Append(h: Handle, b: nat)
      requires Valid() && b == Slot(h.hash, |list|) && forall g :: g in contents ==> g.key != h.key || g.hash != h.hash
      modifies this
      ensures Valid() && contents == old(contents) + {h}
    {
      AppendToChain(list, b, h);
      list := list[b := list[b] + [h]];
      contents := contents + {h};
      elems := elems + 1;
    }

    method Remove(key: Bytes, hash: nat) returns (result: Option<Handle>)
      requires Valid()
      modifies this
      ensures Valid()
      ensures match result
              case None => contents == old(contents) && forall h :: h in contents ==> h.key != key || h.hash != hash
              case Some(h) => h in old(contents) && h.key == key && h.hash == hash && contents == old(contents) - {h}
    {
      var p := FindPointer(key, hash);
      var b := Slot(hash, |list|);
      var chain := list[b];
      if p == |chain| {
        return None;
      }
      assert Has(list, chain[p]);
      result := Some(chain[p]);
      RemoveFromChain(list, b, p);
      list := list[b := chain[..p] + chain[p + 1..]];
      contents := contents - {chain[p]};
      elems := elems - 1;
    }

    /** Moves every handle to the bucket it belongs to among more of them. */
    method Resize()
      requires Valid()
      modifies this
      ensures Valid() && contents == old(contents) && |list| >= elems
    {
      var newLength := 4;
      while newLength < elems
        invariant newLength >= 4
      {
        newLength := newLength * 2;
      }
      list := Rehash(newLength);
    }

    method Rehash(newLength: nat) returns (newList: seq<seq<Handle>>)
      requires Valid() && newLength > 0
      ensures |newList| == newLength && forall k :: 0 <= k < |newList| ==> InBucket(newList, k)
      ensures forall h :: Has(newList, h) <==> Has(list, h)
    {
      newList := seq(newLength, _ => []);
      for i := 0 to |list|
        invariant |newList| == newLength && forall k :: 0 <= k < |newList| ==> InBucket(newList, k)
        invariant forall h :: Has(newList, h) <==> Has(list, h) && Slot(h.hash, |list|) < i
      {
        ghost var before := newList;
        newList := MoveChain(newList, list[i], i);
        forall h ensures Has(newList, h) <==> Has(list, h) && Slot(h.hash, |list|) < i + 1 {
          assert InBucket(list, i);
          assert Has(newList, h) <==> Has(before, h) || h in list[i];
        }
      }
    }

    method MoveChain(newList: seq<seq<Handle>>, chain: seq<Handle>, ghost i: nat) returns (r: seq<seq<Handle>>)
      requires |newList| > 0 && i < |list| && chain == list[i] && InBucket(list, i)
      requires forall k :: 0 <= k < |newList| ==> InBucket(newList, k)
      requires forall h :: Has(newList, h) ==> Slot(h.hash, |list|) != i
      ensures |r| == |newList| && forall k :: 0 <= k < |r| ==> InBucket(r, k)
      ensures forall h :: Has(r, h) <==> Has(newList, h) || h in chain
    {
      r := newList;
      for j := 0 to |chain|
        invariant |r| == |newList| && forall k :: 0 <= k < |r| ==> InBucket(r, k)
        invariant forall h :: Has(r, h) <==> Has(newList, h) || h in chain[..j]
      {
        var h := chain[j];
        assert h in chain && h !in chain[..j];
        var b := Slot(h.hash, |r|);
        PushToChain(r, b, h);
        r := r[b := [h] + r[b]];
        assert chain[..j + 1] == chain[..j] + [h];
      }
      assert chain[..|chain|] == chain;
    }
  }

  lemma PushToChain(list: seq<seq<Handle>>, b: nat, h: Handle)
    requires b < |list| && b == Slot(h.hash, |list|) && !Has(list, h)
    requires forall i :: 0 <= i < |list| ==> InBucket(list, i)
    ensures
      var after := list[b := [h] + list[b]];
      && (forall g :: Has(after, g) <==> Has(list, g) || g == h)
      && forall i :: 0 <= i < |after| ==> InBucket(after, i)
  {
    var after := list[b := [h] + list[b]];
    forall i | 0 <= i < |after| ensures InBucket(after, i) {
      assert InBucket(list, i);
    }
  }

  lemma AppendToChain(list: seq<seq<Handle>>, b: nat, h: Handle)
    requires b < |list| && b == Slot(h.hash, |list|) && !Has(list, h)
    requires forall i :: 0 <= i < |list| ==> InBucket(list, i)
    ensures
      var after := list[b := list[b] + [h]];
      && (forall g :: Has(after, g) <==> Has(list, g) || g == h)
      && forall i :: 0 <= i < |after| ==> InBucket(after, i)
  {
    var after := list[b := list[b] + [h]];
    forall i | 0 <= i < |after| ensures InBucket(after, i) {
      assert InBucket(list, i);
    }
  }

  lemma ReplaceInChain(list: seq<seq<Handle>>, b: nat, p: nat, h: Handle)
    requires b < |list| && b == Slot(h.hash, |list|) && p < |list[b]| && !Has(list, h)
    requires forall i :: 0 <= i < |list| ==> InBucket(list, i)
    ensures
      var after := list[b := list[b][p := h]];
      && (forall g :: Has(after, g) <==> (Has(list, g) && g != list[b][p]) || g == h)
      && forall i :: 0 <= i < |after| ==> InBucket(after, i)
  {
    var after := list[b := list[b][p := h]];
    forall i | 0 <= i < |after| ensures InBucket(after, i) {
      assert InBucket(list, i);
    }
    assert InBucket(list, b) && list[b][p] in list[b];
    forall g | Has(list, g) && g != list[b][p] ensures Has(after, g) {
      if Slot(g.hash, |list|) == b {
        var j :| 0 <= j < |list[b]| && list[b][j] == g;
        assert after[b][j] == g;
      }
    }
    assert after[b][p] == h;
  }

  lemma RemoveFromChain(list: seq<seq<Handle>>, b: nat, p: nat)
    requires b < |list| && p < |list[b]|
    requires forall i :: 0 <= i < |list| ==> InBucket(list, i)
    ensures
      var after := list[b := list[b][..p] + list[b][p + 1..]];
      && (forall g :: Has(after, g) <==> Has(list, g) && g != list[b][p])
      && forall i :: 0 <= i < |after| ==> InBucket(after, i)
  {
    var after := list[b := list[b][..p] + list[b][p + 1..]];
    forall i | 0 <= i < |after| ensures InBucket(after, i) {
      assert InBucket(list, i);
    }
    assert InBucket(list, b) && list[b][p] in list[b];
    forall g | Has(list, g) && g != list[b][p] ensures Has(after, g) {
      if Slot(g.hash, |list|) == b {
        var j :| 0 <= j < |list[b]| && list[b][j] == g;
        assert after[b][if j < p then j else j - 1] == g;
      }
    }
  }

  // In the bucket of its hash.
  predicate Has(list: seq<seq<Handle>>, h: Handle) {
    |list| > 0 && h in list[Slot(h.hash, |list|)]
  }

  // A bucket holds handles of its own only, each once.
  predicate InBucket(list: seq<seq<Handle>>, i: nat)
    requires i < |list|
  {
    && (forall h :: h in list[i] ==> Slot(h.hash, |list|) == i)
    && (forall j, k :: 0 <= j < k < |list[i]| ==> list[i][j] != list[i][k])
  }
}
