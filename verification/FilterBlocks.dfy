/** The filter block of a table: a filter for every 2KB of data blocks. */
module FilterBlocks {
  import opened Primitives
  import opened Coding
  import opened BlockFormat
  import opened BloomFilters

  const FILTER_BASE_LG: Byte := 11
  const FILTER_BASE: nat := 2048

  class FilterBlockBuilder {
    const policy: BloomFilterPolicy
    var keys: Bytes  // the pending keys, end to end
    var starts: seq<nat>  // where each of them begins
    var result: Bytes  // the filters made
    var filterOffsets: seq<nat>
    ghost var pending: seq<Bytes>  // the keys that are flattened
    ghost var groups: seq<seq<Bytes>>  // the keys of each filter

    ghost predicate Valid()
      reads this
    {
      && policy.k <= 30 && Flattened(keys, starts, pending)
      && Filters(policy, result, filterOffsets, groups)
    }

    constructor (policy: BloomFilterPolicy)
      requires policy.k <= 30
      ensures Valid() && pending == [] && groups == [] && this.policy == policy
    {
      this.policy, keys, starts, result, filterOffsets, pending, groups := policy, [], [], [], [], [], [];
    }

    /** From here on, keys belong to a block at this offset. */
    method StartBlock(blockOffset: nat)
      requires Valid() && blockOffset / FILTER_BASE >= |filterOffsets|
      modifies this
      ensures Valid() && |groups| == blockOffset / FILTER_BASE
      ensures groups == if |groups| == old(|groups|) then old(groups)
                        else old(groups) + [old(pending)] + Empties(|groups| - old(|groups|) - 1)
      ensures pending == if |groups| == old(|groups|) then old(pending) else []
    {
      var filterIndex := blockOffset / FILTER_BASE;
      while filterIndex > |filterOffsets|
        invariant Valid() && old(|groups|) <= |groups| <= filterIndex
        invariant if |groups| == old(|groups|) then groups == old(groups) && pending == old(pending)
                  else groups == old(groups) + [old(pending)] + Empties(|groups| - old(|groups|) - 1) && pending == []
        decreases filterIndex - |filterOffsets|
      {
        GenerateFilter();
      }
    }

    method AddKey(key: Bytes)
      requires Valid()
      modifies this
      ensures Valid() && groups == old(groups) && pending == old(pending) + [key]
    {
      OneMoreKey(keys, starts, pending, key);
      starts := starts + [|keys|];
      keys := keys + key;
      pending := pending + [key];
    }

    method GenerateFilter()
      requires Valid()
      modifies this
      ensures Valid() && groups == old(groups) + [old(pending)] && pending == []
    {
      var numKeys := |starts|;
      if numKeys == 0 {
        // Without keys the filter is empty.
        OneMoreFilter(policy, result, result, filterOffsets, groups, pending);
        filterOffsets := filterOffsets + [|result|];
        groups := groups + [pending];
        return;
      }
      var tmpKeys := ListKeys();
      // One filter for all the pending keys.
      var extended := policy.CreateFilter(tmpKeys, result);
      OneMoreFilter(policy, result, extended, filterOffsets, groups, pending);
      filterOffsets := filterOffsets + [|result|];
      result := extended;
      groups := groups + [pending];
      keys, starts, pending := [], [], [];
    }

    /** The whole block: filters, then their offsets, then where those start. */
    method Finish() returns (contents: Bytes)
      requires Valid()
      modifies this
      ensures Valid() && groups == if old(pending) == [] then old(groups) else old(groups) + [old(pending)]
      ensures contents == FilterBytes(result, filterOffsets)
    {
      if |starts| > 0 {
        GenerateFilter();
      }
      // Where each filter begins.
      contents := result;
      for i := 0 to |filterOffsets|
        invariant contents == result + RestartBytes(filterOffsets[..i])
      {
        assert filterOffsets[..i + 1][..i] == filterOffsets[..i];
        contents := contents + Fixed32(filterOffsets[i]);
      }
      assert filterOffsets[..|filterOffsets|] == filterOffsets;
      contents := contents + Fixed32(|result|);
      contents := contents + [FILTER_BASE_LG];
    }

    // Makes a list of keys from the flattened key structure.
    method ListKeys() returns (tmpKeys: seq<Bytes>)
      requires Valid()
      ensures tmpKeys == pending
    {
      var bounds := starts + [|keys|];
      tmpKeys := [];
      for i := 0 to |starts|
        invariant tmpKeys == pending[..i]
      {
        assert KeyAt(keys, starts, pending, i);
        tmpKeys := tmpKeys + [keys[bounds[i]..bounds[i + 1]]];
      }
    }
  }

  function Empties(n: nat): seq<seq<Bytes>> {
    seq(n, _ => [])
  }

  // Where item i ends.
  function Limit(size: nat, starts: seq<nat>, i: nat): nat
    requires i < |starts|
  {
    if i + 1 < |starts| then starts[i + 1] else size
  }

  ghost predicate KeyAt(keys: Bytes, starts: seq<nat>, ks: seq<Bytes>, i: nat)
    requires i < |starts| == |ks|
  {
    starts[i] <= Limit(|keys|, starts, i) <= |keys| && keys[starts[i]..Limit(|keys|, starts, i)] == ks[i]
  }

  // The keys, one after the other.
  ghost predicate Flattened(keys: Bytes, starts: seq<nat>, ks: seq<Bytes>) {
    |starts| == |ks| && forall i: nat :: i < |ks| ==> KeyAt(keys, starts, ks, i)
  }

  lemma OneMoreKey(keys: Bytes, starts: seq<nat>, ks: seq<Bytes>, key: Bytes)
    requires Flattened(keys, starts, ks)
    ensures Flattened(keys + key, starts + [|keys|], ks + [key])
  {
    forall i: nat | i <= |ks| ensures KeyAt(keys + key, starts + [|keys|], ks + [key], i) {
      if i < |ks| {
        assert KeyAt(keys, starts, ks, i);
      }
    }
  }

  // Filter i may match all keys of its group.
  ghost predicate FilterAt(policy: BloomFilterPolicy, result: Bytes, offsets: seq<nat>, groups: seq<seq<Bytes>>, i: nat)
    requires i < |offsets| == |groups|
  {
    && offsets[i] <= Limit(|result|, offsets, i) <= |result|
    && forall k :: k in groups[i] ==> MayMatch(policy.hash, k, result[offsets[i]..Limit(|result|, offsets, i)])
  }

  ghost predicate Filters(policy: BloomFilterPolicy, result: Bytes, offsets: seq<nat>, groups: seq<seq<Bytes>>) {
    |offsets| == |groups| && forall i: nat :: i < |groups| ==> FilterAt(policy, result, offsets, groups, i)
  }

  lemma OneMoreFilter(policy: BloomFilterPolicy, result: Bytes, extended: Bytes, offsets: seq<nat>,
                      groups: seq<seq<Bytes>>, keys: seq<Bytes>)
    requires Filters(policy, result, offsets, groups) && result <= extended
    requires forall k :: k in keys ==> MayMatch(policy.hash, k, extended[|result|..])
    ensures Filters(policy, extended, offsets + [|result|], groups + [keys])
  {
    var newOffsets, newGroups := offsets + [|result|], groups + [keys];
    forall i: nat | i <= |groups| ensures FilterAt(policy, extended, newOffsets, newGroups, i) {
      if i < |groups| {
        assert FilterAt(policy, result, offsets, groups, i);
        assert Limit(|extended|, newOffsets, i) == Limit(|result|, offsets, i);
        assert extended[offsets[i]..Limit(|result|, offsets, i)] == result[offsets[i]..Limit(|result|, offsets, i)];
      }
    }
  }

  // ----- Reading -----

  function FilterBytes(result: Bytes, offsets: seq<nat>): Bytes {
    result + RestartBytes(offsets) + Fixed32(|result|) + [FILTER_BASE_LG]
  }

  // What there is for a block: a filter, none that a key could match, or no telling.
  datatype Found = Filter(b: Bytes) | Nothing | Anything

  function WordAt(contents: Bytes, p: nat): nat
    requires p + 4 <= |contents|
  {
    DecodeFixed(contents[p..p + 4])
  }

  function ShiftRight(x: nat, n: nat): nat {
    if n == 0 then x else ShiftRight(x / 2, n - 1)
  }

  lemma ShiftByBase(x: nat)
    ensures ShiftRight(x, 11) == x / FILTER_BASE
  {
    assert ShiftRight(x, 11) == ShiftRight(x / 4, 9);
    assert ShiftRight(x / 4, 9) == ShiftRight(x / 16, 7);
    assert ShiftRight(x / 16, 7) == ShiftRight(x / 64, 5);
    assert ShiftRight(x / 64, 5) == ShiftRight(x / 256, 3);
    assert ShiftRight(x / 256, 3) == ShiftRight(x / 1024, 1);
  }

  // Of any bytes taken as a filter block.
  function FilterFor(contents: Bytes, blockOffset: nat): Found {
    var n := |contents|;
    if n < 5 then Anything
    else
      var lastWord := WordAt(contents, n - 5);
      if lastWord > n - 5 then Anything
      else
        var index := ShiftRight(blockOffset, contents[n - 1]);
        if index >= (n - 5 - lastWord) / 4 then Anything
        else
          var start, limit := WordAt(contents, lastWord + index * 4), WordAt(contents, lastWord + index * 4 + 4);
          if start <= limit <= lastWord then Filter(contents[start..limit])
          else if start == limit then Nothing
          else Anything
  }

  class FilterBlockReader {
    const policy: BloomFilterPolicy
    const data: Bytes
    const offset: nat  // where the offset array starts
    const num: nat  // number of entries in it
    const baseLg: nat

    predicate Valid() {
      if |data| < 5 || WordAt(data, |data| - 5) > |data| - 5 then num == 0
      else offset == WordAt(data, |data| - 5) && num == (|data| - 5 - offset) / 4 && baseLg == data[|data| - 1]
    }

    constructor (policy: BloomFilterPolicy, contents: Bytes)
      ensures Valid() && data == contents && this.policy == policy
    {
      this.policy, data := policy, contents;
      var n := |contents|;
      var lastWord, entries, lg: nat := 0, 0, 0;
      if n >= 5 {
        lg := contents[n - 1];
        lastWord := WordAt(contents, n - 5);
        if lastWord <= n - 5 {
          entries := (n - 5 - lastWord) / 4;
        }
      }
      offset, num, baseLg := lastWord, entries, lg;
    }

    method KeyMayMatch(blockOffset: nat, key: Bytes) returns (r: bool)
      requires Valid()
      ensures r == match FilterFor(data, blockOffset)
                   case Filter(b) => MayMatch(policy.hash, key, b)
                   case Nothing => false
                   case Anything => true
    {
      var index := ShiftRight(blockOffset, baseLg);
      if index < num {
        var start, limit := WordAt(data, offset + index * 4), WordAt(data, offset + index * 4 + 4);
        if start <= limit <= offset {
          r := policy.KeyMayMatch(key, data[start..limit]);
          return;
        } else if start == limit {
          // No key was added for this part of the file.
          return false;
        }
      }
      return true;  // what cannot be read may match
    }
  }

  /** No key is lost: the filter found for the offset of a block may match every key that was
      added for it, and all others added for the same 2KB. */
  lemma {:induction false} NoKeyIsLost(policy: BloomFilterPolicy, result: Bytes, offsets: seq<nat>,
                                       groups: seq<seq<Bytes>>, blockOffset: nat, key: Bytes)
    requires Filters(policy, result, offsets, groups) && |FilterBytes(result, offsets)| < POW32
    requires blockOffset / FILTER_BASE < |groups| && key in groups[blockOffset / FILTER_BASE]
    ensures
      var found := FilterFor(FilterBytes(result, offsets), blockOffset);
      found.Filter? && MayMatch(policy.hash, key, found.b)
  {
    var contents, i := FilterBytes(result, offsets), blockOffset / FILTER_BASE;
    assert FilterAt(policy, result, offsets, groups, i);
    ShiftByBase(blockOffset);
    LastWordIsSize(result, offsets);
    OffsetsAreRead(policy, result, offsets, groups, i);
    assert contents[offsets[i]..Limit(|result|, offsets, i)] == result[offsets[i]..Limit(|result|, offsets, i)];
  }

  lemma LastWordIsSize(result: Bytes, offsets: seq<nat>)
    requires |result| < POW32
    ensures
      var contents := FilterBytes(result, offsets);
      && |contents| == |result| + 4 * |offsets| + 5
      && WordAt(contents, |contents| - 5) == |result| && contents[|contents| - 1] == FILTER_BASE_LG
  {
    var contents := FilterBytes(result, offsets);
    Pow256Widths();
    FixedRoundTrip(|result|, 4);
    assert contents[|contents| - 5..|contents| - 1] == Fixed32(|result|);
  }

  lemma {:induction false} OffsetsAreRead(policy: BloomFilterPolicy, result: Bytes, offsets: seq<nat>,
                                          groups: seq<seq<Bytes>>, i: nat)
    requires Filters(policy, result, offsets, groups) && |FilterBytes(result, offsets)| < POW32 && i < |offsets|
    ensures
      var contents := FilterBytes(result, offsets);
      && WordAt(contents, |result| + i * 4) == offsets[i]
      && WordAt(contents, |result| + i * 4 + 4) == Limit(|result|, offsets, i)
  {
    OffsetIsRead(policy, result, offsets, groups, i);
    if i + 1 < |offsets| {
      OffsetIsRead(policy, result, offsets, groups, i + 1);
    } else {
      LastWordIsSize(result, offsets);
    }
  }

  lemma {:induction false} OffsetIsRead(policy: BloomFilterPolicy, result: Bytes, offsets: seq<nat>,
                                        groups: seq<seq<Bytes>>, i: nat)
    requires Filters(policy, result, offsets, groups) && |FilterBytes(result, offsets)| < POW32 && i < |offsets|
    ensures WordAt(FilterBytes(result, offsets), |result| + i * 4) == offsets[i]
  {
    assert FilterAt(policy, result, offsets, groups, i);
    RestartAt(offsets, i);
    var contents := FilterBytes(result, offsets);
    assert contents[|result| + i * 4..|result| + i * 4 + 4] == RestartBytes(offsets)[4 * i..4 * i + 4];
  }
}
