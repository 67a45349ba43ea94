/** An iterator over the concatenation of blocks, any of which may be empty, by an index of them. */
module TwoLevelIterators {
  import opened Primitives
  import opened Comparators
  import opened Tables

  // ----- The concatenation -----

  function Before(blocks: seq<seq<Entry>>, i: nat): nat
    requires i <= |blocks|
  {
    if i == 0 then 0 else Before(blocks, i - 1) + |blocks[i - 1]|
  }

  function Flat(blocks: seq<seq<Entry>>): (es: seq<Entry>) {
    if blocks == [] then [] else Flat(blocks[..|blocks| - 1]) + blocks[|blocks| - 1]
  }

  lemma {:induction false} FlatAt(blocks: seq<seq<Entry>>, i: nat, j: nat)
    requires i < |blocks| && j <= |blocks[i]|
    ensures Before(blocks, i) + j <= Before(blocks, |blocks|) == |Flat(blocks)|
    ensures j < |blocks[i]| ==> Before(blocks, i) + j < |Flat(blocks)| && Flat(blocks)[Before(blocks, i) + j] == blocks[i][j]
  {
    var rest := blocks[..|blocks| - 1];
    FlatLength(rest);
    SameBefore(blocks, |rest|);
    SameBefore(blocks, i);
    if i < |rest| {
      FlatAt(rest, i, j);
    }
  }

  lemma {:induction false} FlatLength(blocks: seq<seq<Entry>>)
    ensures |Flat(blocks)| == Before(blocks, |blocks|)
  {
    if blocks != [] {
      FlatLength(blocks[..|blocks| - 1]);
      SameBefore(blocks, |blocks| - 1);
    }
  }

  lemma {:induction false} SameBefore(blocks: seq<seq<Entry>>, i: nat)
    requires i < |blocks|
    ensures Before(blocks[..|blocks| - 1], i) == Before(blocks, i)
  {
    if i > 0 {
      SameBefore(blocks, i - 1);
    }
  }

  // Index keys: none of the entries of block i is after key i, and all those of later blocks are.
  ghost predicate Indexed(seps: seq<IKey>, blocks: seq<seq<Entry>>) {
    && |seps| == |blocks|
    && (forall i, j :: 0 <= i < |blocks| && 0 <= j < |blocks[i]| ==> IAtMost(blocks[i][j].key, seps[i]))
    && (forall i, m, j :: 0 <= i < m < |blocks| && 0 <= j < |blocks[m]| ==> IBefore(seps[i], blocks[m][j].key))
    && (forall i :: 0 <= i < |blocks| ==> Sorted(blocks[i]))
    && (forall i, m :: 0 <= i < m < |seps| ==> IBefore(seps[i], seps[m]))
  }

  // p is the first of some entries at or after k.
  ghost predicate IsFirstIn(es: seq<Entry>, k: IKey, p: nat) {
    && p <= |es| && (forall j :: 0 <= j < p ==> IBefore(es[j].key, k))
    && (p < |es| ==> IAtMost(k, es[p].key))
  }

  class TwoLevelIterator {
    const seps: seq<IKey>
    const blocks: seq<seq<Entry>>
    var indexPos: nat  // of the index iterator; |blocks| when not valid
    var dataBlock: nat  // the block of the data iterator; |blocks| when there is none
    var dataPos: nat
    ghost var pos: nat  // in the concatenation; its length when not valid

    predicate IsValid()
      reads this
    {
      dataBlock < |blocks| && dataPos < |blocks[dataBlock]|
    }

    // The data iterator is where the index iterator is, if anywhere.
    ghost predicate Aligned()
      reads this
    {
      && indexPos <= |blocks|
      && dataBlock == indexPos && (dataBlock < |blocks| ==> dataPos <= |blocks[dataBlock]|)
    }

    ghost predicate Valid()
      reads this
    {
      && Aligned() && (dataBlock < |blocks| ==> dataPos < |blocks[dataBlock]|)
      && pos == if dataBlock < |blocks| then Before(blocks, dataBlock) + dataPos else |Flat(blocks)|
    }

    lemma WhereItIs()
      requires Valid()
      ensures IsValid() <==> pos < |Flat(blocks)|
      ensures IsValid() ==> Flat(blocks)[pos] == blocks[dataBlock][dataPos]
    {
      if dataBlock < |blocks| {
        FlatAt(blocks, dataBlock, dataPos);
      }
    }

    constructor (seps: seq<IKey>, blocks: seq<seq<Entry>>)
      ensures Valid() && pos == |Flat(blocks)| && this.seps == seps && this.blocks == blocks
    {
      this.seps, this.blocks := seps, blocks;
      indexPos, dataBlock, dataPos, pos := |blocks|, |blocks|, 0, |Flat(blocks)|;
    }

    // Makes the data iterator that the index iterator is at, unless it is there.
    method InitDataBlock()
      requires indexPos <= |blocks|
      requires dataBlock < |blocks| ==> dataPos <= |blocks[dataBlock]|
      modifies this`dataBlock, this`dataPos
      ensures Aligned()
    {
      if indexPos == |blocks| {
        dataBlock := |blocks|;
      } else if dataBlock != indexPos {
        dataBlock, dataPos := indexPos, |blocks[indexPos]|;
      }
    }

    method SkipEmptyDataBlocksForward()
      requires Aligned()
      modifies this
      ensures Valid()
      ensures pos == if old(dataBlock) < |blocks| then old(Before(blocks, dataBlock) + dataPos) else |Flat(blocks)|
    {
      ghost var target := if dataBlock < |blocks| then Before(blocks, dataBlock) + dataPos else |Flat(blocks)|;
      FlatLength(blocks);
      while dataBlock == |blocks| || dataPos == |blocks[dataBlock]|
        invariant Aligned()
        invariant target == if dataBlock < |blocks| then Before(blocks, dataBlock) + dataPos else |Flat(blocks)|
        decreases |blocks| - indexPos
      {
        // on to the next block
        if indexPos == |blocks| {
          pos := |Flat(blocks)|;
          return;
        }
        indexPos := indexPos + 1;
        InitDataBlock();
        if dataBlock < |blocks| {
          dataPos := 0;
        }
      }
      pos := target;
    }

    // To the entry before the data iterator's place in the concatenation.
    method SkipEmptyDataBlocksBackward(ghost target: nat)
      requires Aligned()
      requires dataBlock < |blocks| ==>
        if dataPos < |blocks[dataBlock]| then target == Before(blocks, dataBlock) + dataPos + 1 else target == Before(blocks, dataBlock)
      requires dataBlock == |blocks| ==> target == 0
      modifies this
      ensures Valid()
      ensures pos == if target == 0 then |Flat(blocks)| else target - 1
    {
      while dataBlock == |blocks| || dataPos == |blocks[dataBlock]|
        invariant Aligned()
        invariant dataBlock < |blocks| ==>
          if dataPos < |blocks[dataBlock]| then target == Before(blocks, dataBlock) + dataPos + 1 else target == Before(blocks, dataBlock)
        invariant dataBlock == |blocks| ==> target == 0
        decreases dataBlock < |blocks|, indexPos
      {
        // on to the next block
        if indexPos == |blocks| {
          pos := |Flat(blocks)|;
          return;
        }
        indexPos := if indexPos == 0 then |blocks| else indexPos - 1;
        InitDataBlock();
        if dataBlock < |blocks| {
          dataPos := if blocks[dataBlock] == [] then 0 else |blocks[dataBlock]| - 1;
        }
      }
      pos := target - 1;
    }

    method Next()
      requires Valid() && IsValid()
      modifies this
      ensures Valid() && pos == old(pos) + 1
    {
      dataPos := dataPos + 1;
      SkipEmptyDataBlocksForward();
    }

    method Prev()
      requires Valid() && IsValid()
      modifies this
      ensures Valid() && pos == if old(pos) == 0 then |Flat(blocks)| else old(pos) - 1
    {
      ghost var was := pos;
      dataPos := if dataPos == 0 then |blocks[dataBlock]| else dataPos - 1;
      SkipEmptyDataBlocksBackward(was);
    }

    method SeekToFirst()
      requires Valid()
      modifies this
      ensures Valid() && pos == 0
    {
      FlatLength(blocks);
      indexPos := 0;
      InitDataBlock();
      if dataBlock < |blocks| {
        dataPos := 0;
      }
      SkipEmptyDataBlocksForward();
    }

    method SeekToLast()
      requires Valid()
      modifies this
      ensures Valid() && pos == if Flat(blocks) == [] then 0 else |Flat(blocks)| - 1
    {
      FlatLength(blocks);
      indexPos := if |blocks| == 0 then 0 else |blocks| - 1;
      InitDataBlock();
      if dataBlock < |blocks| {
        dataPos := if blocks[dataBlock] == [] then 0 else |blocks[dataBlock]| - 1;
      }
      SkipEmptyDataBlocksBackward(|Flat(blocks)|);
    }

    /** To the first entry of all at or after k, even where the block that the index leads to has
        none. */
    method Seek(k: IKey)
      requires Valid() && Indexed(seps, blocks)
      modifies this
      ensures Valid() && IsFirstIn(Flat(blocks), k, pos)
    {
      indexPos := SeekKeys(seps, k);
      InitDataBlock();
      if dataBlock < |blocks| {
        dataPos := SeekInBlock(blocks[dataBlock], k);
      }
      SeekIsExact(seps, blocks, k, indexPos, if dataBlock < |blocks| then dataPos else 0);
      FlatLength(blocks);
      SkipEmptyDataBlocksForward();
    }
  }

  // The place that the index and a block lead to is that of the first entry at or after k.
  lemma {:induction false} SeekIsExact(seps: seq<IKey>, blocks: seq<seq<Entry>>, k: IKey, i: nat, j: nat)
    requires Indexed(seps, blocks) && i <= |seps|
    requires forall m :: 0 <= m < i ==> IBefore(seps[m], k)
    requires i < |seps| ==> IAtMost(k, seps[i]) && j <= |blocks[i]| && AllBefore(blocks[i], k, j) && (j < |blocks[i]| ==> IAtMost(k, blocks[i][j].key))
    requires i == |seps| ==> j == 0
    ensures IsFirstIn(Flat(blocks), k, Before(blocks, i) + j)
  {
    var p, es := Before(blocks, i) + j, Flat(blocks);
    FlatLength(blocks);
    if i < |blocks| {
      FlatAt(blocks, i, j);
    }
    forall q | 0 <= q < |es| ensures if q < p then IBefore(es[q].key, k) else IAtMost(k, es[q].key) {
      var m, y := Locate(blocks, |blocks|, q);
      FlatAt(blocks, m, y);
      if m < i {
        BeforeGrows(blocks, m + 1, i);
        AtMostThenBefore(blocks[m][y].key, blocks[m][y].key, seps[m], k);
      } else if m > i {
        BeforeGrows(blocks, i + 1, m);
        BeforeAfterAtMost(k, seps[i], blocks[m][y].key);
      } else if y > j {
        BeforeAfterAtMost(k, blocks[m][j].key, blocks[m][y].key);
      }
    }
  }

  lemma BeforeAfterAtMost(a: IKey, b: IKey, c: IKey)
    requires IAtMost(a, b) && IBefore(b, c)
    ensures IAtMost(a, c)
  {
    if a != b {
      IBeforeIsTransitive(a, b, c);
    }
  }

  lemma {:induction false} BeforeGrows(blocks: seq<seq<Entry>>, i: nat, m: nat)
    requires i <= m <= |blocks|
    ensures Before(blocks, i) <= Before(blocks, m)
  {
    if i < m {
      BeforeGrows(blocks, i, m - 1);
    }
  }

  // The block that an entry of the concatenation comes from.
  lemma {:induction false} Locate(blocks: seq<seq<Entry>>, n: nat, q: nat) returns (m: nat, y: nat)
    requires n <= |blocks| && q < Before(blocks, n)
    ensures m < n && y < |blocks[m]| && q == Before(blocks, m) + y
  {
    if q >= Before(blocks, n - 1) {
      m, y := n - 1, q - Before(blocks, n - 1);
    } else {
      m, y := Locate(blocks, n - 1, q);
    }
  }
}
