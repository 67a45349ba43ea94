/** MergingIterator: one cursor over the merge of several sorted runs. */
module MergingIterators {
  import opened Primitives
  import opened InternalKeys
  import opened Iterators

  // An entry and the run that it is of.
  datatype Slot = Slot(child: nat, entry: Entry)

  // By key; of equal keys that of the earlier run comes first.
  predicate SlotBefore(a: Slot, b: Slot) {
    Before(a.entry.key, b.entry.key) || (a.entry.key == b.entry.key && a.child < b.child)
  }

  predicate Strict(merged: seq<Slot>) {
    forall i, j :: 0 <= i < j < |merged| ==> SlotBefore(merged[i], merged[j])
  }

  // merged has all entries of sorted runs, in order.
  ghost predicate Merges(runs: seq<seq<Entry>>, merged: seq<Slot>) {
    && Strict(merged)
    && (forall c :: 0 <= c < |runs| ==> Within(runs[c], c, merged))
    && (forall s :: s in merged ==> s.child < |runs| && s.entry in runs[s.child])
  }

  ghost predicate Within(es: seq<Entry>, c: nat, merged: seq<Slot>) {
    Sorted(es) && forall i :: 0 <= i < |es| ==> Slot(c, es[i]) in merged
  }

  // ----- Places in a run and in the merge -----

  function FirstAfter(es: seq<Entry>, k: InternalKey): (i: nat)
    ensures i <= |es|
    ensures forall j :: 0 <= j < i ==> !Before(k, es[j].key)
    ensures i < |es| ==> Before(k, es[i].key)
  {
    if es == [] || Before(k, es[0].key) then 0 else 1 + FirstAfter(es[1..], k)
  }

  // The first slot at or after a key, and the first after it.
  function SlotAtOrAfter(merged: seq<Slot>, k: InternalKey): (j: nat)
    ensures j <= |merged|
    ensures forall i :: 0 <= i < j ==> Before(merged[i].entry.key, k)
    ensures j < |merged| ==> !Before(merged[j].entry.key, k)
  {
    if merged == [] || !Before(merged[0].entry.key, k) then 0 else 1 + SlotAtOrAfter(merged[1..], k)
  }

  function SlotAfter(merged: seq<Slot>, k: InternalKey): (j: nat)
    ensures j <= |merged|
    ensures forall i :: 0 <= i < j ==> !Before(k, merged[i].entry.key)
    ensures j < |merged| ==> Before(k, merged[j].entry.key)
  {
    if merged == [] || Before(k, merged[0].entry.key) then 0 else 1 + SlotAfter(merged[1..], k)
  }

  // How many entries of run c come before slot s.
  function RankAt(es: seq<Entry>, c: nat, s: Slot): (r: nat)
    ensures r <= |es|
  {
    if c < s.child then FirstAfter(es, s.entry.key) else FirstAtOrAfter(es, s.entry.key)
  }

  // How many come before position j of the merge.
  function Rank(es: seq<Entry>, c: nat, merged: seq<Slot>, j: nat): (r: nat)
    requires j <= |merged|
    ensures r <= |es|
  {
    if j == |merged| then |es| else RankAt(es, c, merged[j])
  }

  // The position one step back in a run; |es| marks an invalid one.
  function StepBack(es: seq<Entry>, pos: nat): nat {
    if pos == 0 then |es| else pos - 1
  }

  lemma InOrder(es: seq<Entry>, i: nat, j: nat)
    requires Sorted(es)
    ensures i < j < |es| ==> Before(es[i].key, es[j].key)
  {
  }

  lemma SlotsInOrder(merged: seq<Slot>, i: nat, j: nat)
    requires Strict(merged)
    ensures i < j < |merged| ==> SlotBefore(merged[i], merged[j])
  {
  }

  lemma RankAtCuts(es: seq<Entry>, c: nat, s: Slot, i: nat)
    requires Sorted(es) && i < |es|
    ensures i < RankAt(es, c, s) <==> SlotBefore(Slot(c, es[i]), s)
  {
    InOrder(es, RankAt(es, c, s), i);
  }

  // Entry i of a run comes before position j of the merge exactly when its own slot does.
  lemma RankCuts(es: seq<Entry>, c: nat, merged: seq<Slot>, j: nat, i: nat) returns (m: nat)
    requires Within(es, c, merged) && Strict(merged) && j <= |merged| && i < |es|
    ensures m < |merged| && merged[m] == Slot(c, es[i])
    ensures i < Rank(es, c, merged, j) <==> m < j
  {
    m :| 0 <= m < |merged| && merged[m] == Slot(c, es[i]);
    if j < |merged| {
      RankAtCuts(es, c, merged[j], i);
      SlotsInOrder(merged, m, j);
      SlotsInOrder(merged, j, m);
    }
  }

  // A place in a run that cuts it as position j of the merge does.
  lemma RankIs(es: seq<Entry>, c: nat, merged: seq<Slot>, j: nat, r: nat)
    requires Within(es, c, merged) && Strict(merged) && j <= |merged| && r <= |es|
    requires forall i, m :: 0 <= i < |es| && 0 <= m < |merged| && merged[m] == Slot(c, es[i]) ==> (i < r <==> m < j)
    ensures Rank(es, c, merged, j) == r
  {
    var q := Rank(es, c, merged, j);
    if q < |es| {
      var m := RankCuts(es, c, merged, j, q);
    }
    if r < |es| {
      var m := RankCuts(es, c, merged, j, r);
    }
  }

  lemma RankOfOwner(es: seq<Entry>, c: nat, merged: seq<Slot>, j: nat)
    requires Within(es, c, merged) && Strict(merged) && j < |merged| && merged[j].child == c && merged[j].entry in es
    ensures Rank(es, c, merged, j) < |es| && es[Rank(es, c, merged, j)] == merged[j].entry
    ensures Rank(es, c, merged, j) == FirstAtOrAfter(es, merged[j].entry.key)
  {
    var i :| 0 <= i < |es| && es[i] == merged[j].entry;
    InOrder(es, FirstAtOrAfter(es, merged[j].entry.key), i);
  }

  lemma RankSteps(es: seq<Entry>, c: nat, merged: seq<Slot>, j: nat)
    requires Within(es, c, merged) && Strict(merged) && j < |merged|
    requires merged[j].child == c ==> merged[j].entry in es
    ensures Rank(es, c, merged, j + 1) == Rank(es, c, merged, j) + if merged[j].child == c then 1 else 0
  {
    var r := Rank(es, c, merged, j);
    if merged[j].child == c {
      RankOfOwner(es, c, merged, j);
    }
    forall i, m | 0 <= i < |es| && 0 <= m < |merged| && merged[m] == Slot(c, es[i])
      ensures i < r + (if merged[j].child == c then 1 else 0) <==> m < j + 1
    {
      var n := RankCuts(es, c, merged, j, i);
      SlotIsOne(merged, m, n);
      if merged[j].child == c {
        SlotOfPlace(es, c, merged, j, r, i, m);
      }
    }
    RankIs(es, c, merged, j + 1, r + if merged[j].child == c then 1 else 0);
  }

  lemma SlotIsOne(merged: seq<Slot>, m: nat, n: nat)
    requires Strict(merged) && m < |merged| && n < |merged| && merged[m] == merged[n]
    ensures m == n
  {
    SlotsInOrder(merged, m, n);
    SlotsInOrder(merged, n, m);
  }

  lemma SlotOfPlace(es: seq<Entry>, c: nat, merged: seq<Slot>, j: nat, r: nat, i: nat, m: nat)
    requires Sorted(es) && Strict(merged) && j < |merged| && r < |es| && merged[j] == Slot(c, es[r])
    requires i < |es| && m < |merged| && merged[m] == Slot(c, es[i])
    ensures i == r <==> m == j
  {
    if i == r {
      SlotIsOne(merged, m, j);
    } else {
      assert es[i].key != es[r].key;
    }
  }

  lemma SeekRanks(es: seq<Entry>, c: nat, merged: seq<Slot>, target: InternalKey)
    requires Within(es, c, merged) && Strict(merged)
    ensures Rank(es, c, merged, SlotAtOrAfter(merged, target)) == FirstAtOrAfter(es, target)
  {
    var j, r := SlotAtOrAfter(merged, target), FirstAtOrAfter(es, target);
    forall i, m | 0 <= i < |es| && 0 <= m < |merged| && merged[m] == Slot(c, es[i])
      ensures i < r <==> m < j
    {
      InOrder(es, r, i);
      SlotsInOrder(merged, j, m);
    }
    RankIs(es, c, merged, j, r);
  }

  lemma PassRanks(es: seq<Entry>, c: nat, merged: seq<Slot>, k: InternalKey)
    requires Within(es, c, merged) && Strict(merged)
    ensures Rank(es, c, merged, SlotAfter(merged, k)) == FirstAfter(es, k)
  {
    var j, r := SlotAfter(merged, k), FirstAfter(es, k);
    forall i, m | 0 <= i < |es| && 0 <= m < |merged| && merged[m] == Slot(c, es[i])
      ensures i < r <==> m < j
    {
      InOrder(es, r, i);
      SlotsInOrder(merged, j, m);
    }
    RankIs(es, c, merged, j, r);
  }

  // A seek to a key, and one more step if it is there, passes it.
  lemma SeekThenPass(es: seq<Entry>, k: InternalKey)
    requires Sorted(es)
    ensures
      var p := FirstAtOrAfter(es, k);
      FirstAfter(es, k) == if p < |es| && es[p].key == k then p + 1 else p
  {
    var p, q := FirstAtOrAfter(es, k), FirstAfter(es, k);
    if q > 0 {
      InOrder(es, p, q - 1);
    }
    InOrder(es, p, p + 1);
  }

  /** The slot behind a key is the next one exactly if that has another key, and likewise before it. */
  lemma NextDiffers(merged: seq<Slot>, j: nat)
    requires Strict(merged) && j < |merged|
    ensures SlotAfter(merged, merged[j].entry.key) == j + 1
       <==> (j + 1 == |merged| || merged[j + 1].entry.key != merged[j].entry.key)
  {
    var after := SlotAfter(merged, merged[j].entry.key);
    SlotsInOrder(merged, j, j + 1);
    SlotsInOrder(merged, after, j);
  }

  lemma PrevDiffers(merged: seq<Slot>, j: nat)
    requires Strict(merged) && j < |merged|
    ensures SlotAtOrAfter(merged, merged[j].entry.key) == j
       <==> (j == 0 || merged[j - 1].entry.key != merged[j].entry.key)
  {
    var at := SlotAtOrAfter(merged, merged[j].entry.key);
    if j > 0 {
      SlotsInOrder(merged, j - 1, j);
      SlotsInOrder(merged, at, j - 1);
    }
  }

  // ----- Any runs can be merged -----

  lemma InsertSlot(merged: seq<Slot>, s: Slot) returns (r: seq<Slot>)
    requires Strict(merged) && forall t :: t in merged ==> t.child != s.child || t.entry.key != s.entry.key
    ensures Strict(r) && forall t :: t in r <==> t in merged || t == s
  {
    var i := PlaceFor(merged, s);
    r := merged[..i] + [s] + merged[i..];
    assert forall t :: t in merged <==> t in merged[..i] || t in merged[i..];
    forall x, y | 0 <= x < y < |r|
      ensures SlotBefore(r[x], r[y])
    {
      assert r[x] == if x < i then merged[x] else if x == i then s else merged[x - 1];
      assert r[y] == if y < i then merged[y] else if y == i then s else merged[y - 1];
      SlotsInOrder(merged, i, y - 1);
    }
  }

  function PlaceFor(merged: seq<Slot>, s: Slot): (i: nat)
    ensures i <= |merged|
    ensures forall j :: 0 <= j < i ==> SlotBefore(merged[j], s)
    ensures i < |merged| ==> !SlotBefore(merged[i], s)
  {
    if merged == [] || !SlotBefore(merged[0], s) then 0 else 1 + PlaceFor(merged[1..], s)
  }

  lemma {:induction false} InsertRun(merged: seq<Slot>, es: seq<Entry>, c: nat) returns (r: seq<Slot>)
    requires Strict(merged) && Sorted(es) && forall t :: t in merged ==> t.child != c
    ensures Strict(r) && forall t :: t in r <==> t in merged || (t.child == c && t.entry in es)
  {
    r := merged;
    if es != [] {
      var front, e := es[..|es| - 1], es[|es| - 1];
      assert forall x :: x in es <==> x in front || x == e;
      r := InsertRun(merged, front, c);
      forall t | t in r
        ensures t.child != c || t.entry.key != e.key
      {
        if t.child == c {
          var i :| 0 <= i < |front| && front[i] == t.entry;
          InOrder(es, i, |es| - 1);
        }
      }
      r := InsertSlot(r, Slot(c, e));
    }
  }

  /** Whatever the runs are, equal entries in several of them included, there is a merge of them. */
  lemma {:induction false} CanBeMerged(runs: seq<seq<Entry>>) returns (merged: seq<Slot>)
    requires forall c :: 0 <= c < |runs| ==> Sorted(runs[c])
    ensures Merges(runs, merged)
  {
    merged := [];
    if runs != [] {
      var n := |runs| - 1;
      var front := CanBeMerged(runs[..n]);
      merged := InsertRun(front, runs[n], n);
      forall c | 0 <= c < |runs|
        ensures Within(runs[c], c, merged)
      {
        if c < n {
          assert runs[..n][c] == runs[c] && Within(runs[..n][c], c, front);
        }
      }
    }
  }

  // ----- The iterator -----

  datatype Direction = Forward | Reverse

  class MergingIterator {
    const children: seq<InternalIterator>
    ghost const merged: seq<Slot>
    var current: Option<nat>
    var direction: Direction
    ghost var cur: nat  // position in the merge; |merged| when not valid

    ghost function Runs(): seq<seq<Entry>> {
      seq(|children|, i requires 0 <= i < |children| => children[i].entries)
    }

    ghost predicate Ready()
      reads this, children
    {
      && (forall i, j :: 0 <= i < j < |children| ==> children[i] != children[j])
      && Merges(Runs(), merged)
      && forall i :: 0 <= i < |children| ==> children[i].pos <= |children[i].entries|
    }

    ghost predicate AtRank(i: nat, j: nat)
      requires i < |children| && j <= |merged|
      reads children[i]
    {
      children[i].pos == Rank(children[i].entries, i, merged, j)
    }

    ghost predicate BeforeRank(i: nat, j: nat)
      requires i < |children| && j <= |merged|
      reads children[i]
    {
      children[i].pos == StepBack(children[i].entries, Rank(children[i].entries, i, merged, j))
    }

    ghost predicate AllAt(j: nat)
      requires j <= |merged|
      reads children
    {
      forall i :: 0 <= i < |children| ==> AtRank(i, j)
    }

    ghost predicate AllBefore(j: nat)
      requires j <= |merged|
      reads children
    {
      forall i :: 0 <= i < |children| ==> BeforeRank(i, j)
    }

    ghost predicate OthersAt(c: nat, j: nat)
      requires j <= |merged|
      reads children
    {
      forall i :: 0 <= i < |children| && i != c ==> AtRank(i, j)
    }

    ghost predicate OthersBefore(c: nat, j: nat)
      requires j <= |merged|
      reads children
    {
      forall i :: 0 <= i < |children| && i != c ==> BeforeRank(i, j)
    }

    ghost predicate Valid()
      reads this, children
    {
      && Ready()
      && cur <= |merged|
      && (current.Some? <==> cur < |merged|)
      && (current.Some? ==>
            var c := current.value;
            && c < |children| && merged[cur].child == c
            && AtRank(c, cur)
            && if direction == Forward then OthersAt(c, cur) else OthersBefore(c, cur))
    }

    constructor (children: seq<InternalIterator>, ghost merged: seq<Slot>)
      requires forall i, j :: 0 <= i < j < |children| ==> children[i] != children[j]
      requires Merges(seq(|children|, i requires 0 <= i < |children| => children[i].entries), merged)
      requires forall i :: 0 <= i < |children| ==> children[i].pos <= |children[i].entries|
      ensures Valid() && this.children == children && this.merged == merged && cur == |merged| && direction == Forward
    {
      this.children, this.merged := children, merged;
      current, direction, cur := None, Forward, |merged|;
    }

    lemma RunIsWithin(i: nat)
      requires Ready() && i < |children|
      ensures Within(children[i].entries, i, merged) && Strict(merged)
    {
      assert Runs()[i] == children[i].entries;
    }

    lemma OwnerOf(j: nat)
      requires Ready() && j < |merged|
      ensures merged[j].child < |children| && merged[j].entry in children[merged[j].child].entries
    {
      assert merged[j] in merged && Runs()[merged[j].child] == children[merged[j].child].entries;
    }

    // What a child stands on.
    ghost function Here(i: nat): Slot
      requires i < |children| && children[i].Valid()
      reads children[i]
    {
      Slot(i, children[i].entries[children[i].pos])
    }

    method FindSmallest(ghost j: nat)
      requires Ready() && j <= |merged|
      requires AllAt(j)
      modifies this`current, this`cur
      ensures cur == j && (current.Some? <==> j < |merged|)
      ensures current.Some? ==> current.value < |children| && merged[j].child == current.value
    {
      var smallest: Option<nat> := None;
      for i := 0 to |children|
        invariant smallest.Some? ==> smallest.value < i && children[smallest.value].Valid()
        invariant forall k :: 0 <= k < i && children[k].Valid() ==> smallest.Some? && !SlotBefore(Here(k), Here(smallest.value))
      {
        var child := children[i];
        if child.Valid() {
          if smallest == None {
            smallest := Some(i);
          } else {
            ComparePacksCorrectly(child.Key(), children[smallest.value].Key());
            if Compare(child.Key(), children[smallest.value].Key()) < 0 {
              smallest := Some(i);
            }
          }
        }
      }
      current := smallest;
      cur := j;
      SmallestIsNext(j, smallest);
    }

    // The child whose slot comes next stands on it, and the others stand behind it.
    lemma StandsAtRank(j: nat, i: nat)
      requires Ready() && j < |merged| && i < |children| && AtRank(i, j)
      ensures i == merged[j].child ==> children[i].Valid() && Here(i) == merged[j]
      ensures i != merged[j].child && children[i].Valid() ==> SlotBefore(merged[j], Here(i))
    {
      RunIsWithin(i);
      OwnerOf(j);
      if i == merged[j].child {
        RankOfOwner(children[i].entries, i, merged, j);
      } else if children[i].Valid() {
        var m := RankCuts(children[i].entries, i, merged, j, children[i].pos);
        assert m != j && SlotBefore(merged[j], merged[m]);
      }
    }

    lemma SmallestIsNext(j: nat, smallest: Option<nat>)
      requires Ready() && j <= |merged|
      requires AllAt(j)
      requires smallest.Some? ==> smallest.value < |children| && children[smallest.value].Valid()
      requires forall k :: 0 <= k < |children| && children[k].Valid() ==>
        smallest.Some? && !SlotBefore(Here(k), Here(smallest.value))
      ensures smallest.Some? <==> j < |merged|
      ensures smallest.Some? ==> merged[j].child == smallest.value
    {
      if j < |merged| {
        OwnerOf(j);
        StandsAtRank(j, merged[j].child);
        StandsAtRank(j, smallest.value);
      } else {
        assert forall i :: 0 <= i < |children| && AtRank(i, j) ==> !children[i].Valid();
      }
    }

    method FindLargest(ghost j: nat)
      requires Ready() && j <= |merged|
      requires AllBefore(j)
      modifies this`current, this`cur
      ensures cur == if j == 0 then |merged| else j - 1
      ensures current.Some? <==> j > 0
      ensures current.Some? ==> current.value < |children| && merged[j - 1].child == current.value
    {
      var largest: Option<nat> := None;
      for i := |children| downto 0
        invariant largest.Some? ==> i <= largest.value < |children| && children[largest.value].Valid()
        invariant forall k :: i <= k < |children| && children[k].Valid() ==> largest.Some? && !SlotBefore(Here(largest.value), Here(k))
      {
        var child := children[i];
        if child.Valid() {
          if largest == None {
            largest := Some(i);
          } else {
            ComparePacksCorrectly(child.Key(), children[largest.value].Key());
            if Compare(child.Key(), children[largest.value].Key()) > 0 {
              largest := Some(i);
            }
          }
        }
      }
      current := largest;
      cur := if j == 0 then |merged| else j - 1;
      LargestIsPrevious(j, largest);
    }

    // The child whose slot comes before j stands on it, and the others stand before it.
    lemma StandsBeforeRank(j: nat, i: nat)
      requires Ready() && 0 < j <= |merged| && i < |children| && BeforeRank(i, j)
      ensures i == merged[j - 1].child ==> children[i].Valid() && Here(i) == merged[j - 1]
      ensures i != merged[j - 1].child && children[i].Valid() ==> SlotBefore(Here(i), merged[j - 1])
    {
      RunIsWithin(i);
      OwnerOf(j - 1);
      RankSteps(children[i].entries, i, merged, j - 1);
      if i == merged[j - 1].child {
        RankOfOwner(children[i].entries, i, merged, j - 1);
      } else if children[i].Valid() {
        var m := RankCuts(children[i].entries, i, merged, j, children[i].pos);
        assert m != j - 1 && SlotBefore(merged[m], merged[j - 1]);
      }
    }

    lemma LargestIsPrevious(j: nat, largest: Option<nat>)
      requires Ready() && j <= |merged|
      requires AllBefore(j)
      requires largest.Some? ==> largest.value < |children| && children[largest.value].Valid()
      requires forall k :: 0 <= k < |children| && children[k].Valid() ==>
        largest.Some? && !SlotBefore(Here(largest.value), Here(k))
      ensures largest.Some? <==> j > 0
      ensures largest.Some? ==> merged[j - 1].child == largest.value
    {
      if j > 0 {
        OwnerOf(j - 1);
        StandsBeforeRank(j, merged[j - 1].child);
        StandsBeforeRank(j, largest.value);
      } else {
        forall i | 0 <= i < |children|
          ensures !children[i].Valid()
        {
          assert BeforeRank(i, 0);
          FirstRank(i);
        }
      }
    }

    lemma RankOfChild(c: nat)
      requires Ready() && c < |children| && cur < |merged| && merged[cur].child == c && AtRank(c, cur)
      ensures children[c].Valid() && children[c].entries[children[c].pos] == merged[cur].entry
      ensures children[c].pos == FirstAtOrAfter(children[c].entries, merged[cur].entry.key)
    {
      RunIsWithin(c);
      OwnerOf(cur);
      RankOfOwner(children[c].entries, c, merged, cur);
    }

    lemma RankMoves(i: nat, j: nat)
      requires Ready() && i < |children| && j < |merged|
      ensures Rank(children[i].entries, i, merged, j + 1)
           == Rank(children[i].entries, i, merged, j) + if merged[j].child == i then 1 else 0
    {
      RunIsWithin(i);
      OwnerOf(j);
      RankSteps(children[i].entries, i, merged, j);
    }

    // The owner of the current slot is the first or the last before the slots of other keys.
    lemma OwnerRanks(c: nat)
      requires Ready() && c < |children| && cur < |merged| && merged[cur].child == c
      ensures
        var es, key := children[c].entries, merged[cur].entry.key;
        && Rank(es, c, merged, SlotAfter(merged, key)) == Rank(es, c, merged, cur) + 1
        && Rank(es, c, merged, SlotAtOrAfter(merged, key)) == Rank(es, c, merged, cur)
    {
      RunIsWithin(c);
      OwnerOf(cur);
      RankOfOwner(children[c].entries, c, merged, cur);
      PassRanks(children[c].entries, c, merged, merged[cur].entry.key);
      SeekRanks(children[c].entries, c, merged, merged[cur].entry.key);
      SeekThenPass(children[c].entries, merged[cur].entry.key);
    }

    // Puts all but the current child behind its key.
    method MoveOthersAfter(c: nat)
      requires Ready() && c < |children| && cur < |merged| && merged[cur].child == c && AtRank(c, cur)
      modifies set i | 0 <= i < |children| && i != c :: children[i]
      ensures Ready() && AtRank(c, cur) && OthersAt(c, SlotAfter(merged, merged[cur].entry.key))
    {
      RankOfChild(c);
      var key := children[c].Key();
      for i := 0 to |children|
        invariant Ready() && AtRank(c, cur)
        invariant forall k :: 0 <= k < i && k != c ==> AtRank(k, SlotAfter(merged, key))
      {
        if i != c {
          PutAfter(i, key);
        }
      }
    }

    method PutAfter(i: nat, key: InternalKey)
      requires Ready() && i < |children|
      modifies children[i]
      ensures Ready() && AtRank(i, SlotAfter(merged, key))
    {
      RunIsWithin(i);
      PassRanks(children[i].entries, i, merged, key);
      PassKey(children[i], key);
    }

    // Puts all but the current child before its key.
    method MoveOthersBefore(c: nat)
      requires Ready() && c < |children| && cur < |merged| && merged[cur].child == c && AtRank(c, cur)
      modifies set i | 0 <= i < |children| && i != c :: children[i]
      ensures Ready() && AtRank(c, cur) && OthersBefore(c, SlotAtOrAfter(merged, merged[cur].entry.key))
    {
      RankOfChild(c);
      var key := children[c].Key();
      for i := 0 to |children|
        invariant Ready() && AtRank(c, cur)
        invariant forall k :: 0 <= k < i && k != c ==> BeforeRank(k, SlotAtOrAfter(merged, key))
      {
        if i != c {
          PutBefore(i, key);
        }
      }
    }

    method PutBefore(i: nat, key: InternalKey)
      requires Ready() && i < |children|
      modifies children[i]
      ensures Ready() && BeforeRank(i, SlotAtOrAfter(merged, key))
    {
      RunIsWithin(i);
      SeekRanks(children[i].entries, i, merged, key);
      BeforeKey(children[i], key);
    }

    // Where Next goes to: after a step back all children are put behind the key first.
    ghost function NextPlace(): (j: nat)
      requires cur < |merged|
      reads this
      ensures j <= |merged|
    {
      if direction == Forward then cur + 1 else SlotAfter(merged, merged[cur].entry.key)
    }

    // And Prev goes before this: after a step forward all children are put before the key first.
    ghost function PrevPlace(): (j: nat)
      requires cur < |merged|
      reads this
      ensures j <= |merged|
    {
      if direction == Reverse then cur else SlotAtOrAfter(merged, merged[cur].entry.key)
    }

    // What the others stand on is behind the current slot.
    lemma OthersArePast(c: nat)
      requires Ready() && c < |children| && cur < |merged| && merged[cur].child == c && OthersAt(c, cur)
      ensures OthersAt(c, cur + 1) && Rank(children[c].entries, c, merged, cur + 1) == Rank(children[c].entries, c, merged, cur) + 1
    {
      RankMoves(c, cur);
      var next := cur + 1;
      forall i | 0 <= i < |children| && i != c
        ensures AtRank(i, next)
      {
        assert AtRank(i, cur);
        RankMoves(i, cur);
      }
    }

    /** To the next slot; turning round passes over slots with an equal key in other runs. */
    method Next()
      requires Valid() && current.Some?
      modifies this, children
      ensures Valid() && direction == Forward && cur == old(NextPlace())
    {
      var c := current.value;
      ghost var next := NextPlace();
      OwnerRanks(c);
      if direction != Forward {
        MoveOthersAfter(c);
        direction := Forward;
      } else {
        OthersArePast(c);
      }
      StepForward(c, next);
    }

    method StepForward(c: nat, ghost next: nat)
      requires Ready() && c < |children| && cur < |merged| && next <= |merged| && merged[cur].child == c
      requires AtRank(c, cur) && OthersAt(c, next)
      requires Rank(children[c].entries, c, merged, next) == Rank(children[c].entries, c, merged, cur) + 1
      modifies this`current, this`cur, children[c]
      ensures Ready() && AllAt(next) && cur == next && (current.Some? <==> next < |merged|)
      ensures current.Some? ==> current.value < |children| && merged[next].child == current.value
    {
      RankOfChild(c);
      children[c].Next();
      assert AllAt(next);
      FindSmallest(next);
    }

    /** To the slot before; turning round passes over slots with an equal key in other runs. */
    method Prev()
      requires Valid() && current.Some?
      modifies this, children
      ensures Valid() && direction == Reverse && cur == old(var j := PrevPlace(); if j == 0 then |merged| else j - 1)
    {
      var c := current.value;
      ghost var j := PrevPlace();
      OwnerRanks(c);
      if direction != Reverse {
        MoveOthersBefore(c);
        direction := Reverse;
      }
      StepBackward(c, j);
    }

    method StepBackward(c: nat, ghost j: nat)
      requires Ready() && c < |children| && cur < |merged| && j <= |merged| && merged[cur].child == c
      requires AtRank(c, cur) && OthersBefore(c, j)
      requires Rank(children[c].entries, c, merged, j) == Rank(children[c].entries, c, merged, cur)
      modifies this`current, this`cur, children[c]
      ensures Ready() && (cur == if j == 0 then |merged| else j - 1) && (current.Some? <==> j > 0)
      ensures current.Some? ==> current.value < |children| && merged[cur].child == current.value
                                && AtRank(current.value, cur) && OthersBefore(current.value, cur)
    {
      RankOfChild(c);
      children[c].Prev();
      assert AllBefore(j);
      FindLargest(j);
      if j > 0 {
        StepBackRanks(j, current.value);
      }
    }

    // Positions before the previous slot are the positions before this one, but for its owner.
    lemma StepBackRanks(j: nat, c: nat)
      requires Ready() && 0 < j <= |merged| && c < |children| && merged[j - 1].child == c
      requires AllBefore(j)
      ensures AtRank(c, j - 1) && OthersBefore(c, j - 1)
    {
      var k := j - 1;
      assert BeforeRank(c, j);
      RankMoves(c, k);
      forall i | 0 <= i < |children| && i != c
        ensures BeforeRank(i, k)
      {
        assert BeforeRank(i, j);
        RankMoves(i, k);
      }
    }

    method SeekToFirst()
      requires Valid()
      modifies this, children
      ensures Valid() && cur == 0 && direction == Forward
    {
      for i := 0 to |children|
        invariant Ready()
        invariant forall k :: 0 <= k < i ==> children[k].pos == 0
      {
        children[i].SeekToFirst();
      }
      forall i | 0 <= i < |children|
        ensures AtRank(i, 0)
      {
        FirstRank(i);
      }
      FindSmallest(0);
      direction := Forward;
    }

    lemma FirstRank(i: nat)
      requires Ready() && i < |children|
      ensures Rank(children[i].entries, i, merged, 0) == 0
    {
      RunIsWithin(i);
      if children[i].entries != [] {
        var m := RankCuts(children[i].entries, i, merged, 0, 0);
      }
    }

    method SeekToLast()
      requires Valid()
      modifies this, children
      ensures Valid() && cur == (if merged == [] then 0 else |merged| - 1) && direction == Reverse
    {
      for i := 0 to |children|
        invariant Ready()
        invariant forall k :: 0 <= k < i ==> BeforeRank(k, |merged|)
      {
        children[i].SeekToLast();
      }
      FindLargest(|merged|);
      direction := Reverse;
      if merged != [] {
        StepBackRanks(|merged|, current.value);
      }
    }

    method Seek(target: InternalKey)
      requires Valid()
      modifies this, children
      ensures Valid() && cur == SlotAtOrAfter(merged, target) && direction == Forward
    {
      ghost var j := SlotAtOrAfter(merged, target);
      for i := 0 to |children|
        invariant Ready()
        invariant forall k :: 0 <= k < i ==> AtRank(k, j)
      {
        children[i].Seek(target);
        RunIsWithin(i);
        SeekRanks(children[i].entries, i, merged, target);
      }
      FindSmallest(j);
      direction := Forward;
    }
  }

  // To the first entry behind a key.
  method PassKey(child: InternalIterator, key: InternalKey)
    requires Sorted(child.entries)
    modifies child
    ensures child.pos == FirstAfter(child.entries, key)
  {
    SeekThenPass(child.entries, key);
    child.Seek(key);
    if child.Valid() {
      ComparePacksCorrectly(key, child.Key());
      if Compare(key, child.Key()) == 0 {
        child.Next();
      }
    }
  }

  // To the last entry before a key.
  method BeforeKey(child: InternalIterator, key: InternalKey)
    modifies child
    ensures child.pos == StepBack(child.entries, FirstAtOrAfter(child.entries, key))
  {
    child.Seek(key);
    if child.Valid() {
      child.Prev();
    } else {
      child.SeekToLast();
    }
  }
}
