/** The list of live snapshots: a circular doubly linked list around a dummy head. */
module Snapshots {
  import opened InternalKeys

  class SnapshotImpl {
    const number: SequenceNumber
    var prev: SnapshotImpl
    var next: SnapshotImpl

    constructor (number: SequenceNumber)
      ensures this.number == number && prev == this && next == this
    {
      this.number := number;
      prev, next := this, this;
    }
  }

  // Neighbours point at each other, in a ring that passes over its k-th node.
  ghost predicate LinkedPast(ring: seq<SnapshotImpl>, k: nat)
    requires 1 <= k < |ring|
    reads ring
  {
    && (forall i {:trigger ring[i].next} :: 0 <= i < |ring| && i != k && i != k - 1 ==>
          ring[i].next == if i + 1 < |ring| then ring[i + 1] else ring[0])
    && (forall i {:trigger ring[i].prev} :: 1 <= i < |ring| && i != k && i != k + 1 ==> ring[i].prev == ring[i - 1])
    && ring[k - 1].next == (if k + 1 < |ring| then ring[k + 1] else ring[0])
    && (if k + 1 < |ring| then ring[k + 1].prev == ring[k - 1] && ring[0].prev == ring[|ring| - 1] else ring[0].prev == ring[k - 1])
  }

  ghost predicate IsRing(ring: seq<SnapshotImpl>)
    reads ring
  {
    && |ring| > 0
    && (forall i {:trigger ring[i].next} :: 0 <= i < |ring| - 1 ==> ring[i].next == ring[i + 1])
    && (forall i {:trigger ring[i].prev} :: 1 <= i < |ring| ==> ring[i].prev == ring[i - 1])
    && ring[|ring| - 1].next == ring[0] && ring[0].prev == ring[|ring| - 1]
  }

  lemma PastIsLinked(ring: seq<SnapshotImpl>, k: nat)
    requires 1 <= k < |ring| && LinkedPast(ring, k)
    ensures
      var r := ring[..k] + ring[k + 1..];
      IsRing(r) && r[0] == ring[0]
  {
    var r := ring[..k] + ring[k + 1..];
    forall i | 0 <= i < |r|
      ensures r[i] == if i < k then ring[i] else ring[i + 1]
    {
    }
  }

  class SnapshotList {
    const list: SnapshotImpl  // dummy head
    ghost var ring: seq<SnapshotImpl>  // the dummy head, then the live snapshots, oldest first

    ghost predicate Live(s: SnapshotImpl)
      reads this
    {
      s in ring && s != list
    }

    ghost predicate Valid()
      reads this, ring
    {
      && IsRing(ring) && ring[0] == list
      && (forall i, j :: 0 <= i < j < |ring| ==> ring[i] != ring[j])
      && forall i, j :: 1 <= i < j < |ring| ==> ring[i].number <= ring[j].number
    }

    constructor ()
      ensures Valid() && ring == [list] && fresh(list)
    {
      list := new SnapshotImpl(0);
      ring := [list];
    }

    method Empty() returns (r: bool)
      requires Valid()
      ensures r <==> ring == [list]
    {
      r := list.next == list;
      assert |ring| > 1 ==> ring[0].next == ring[1];
    }

    // The snapshot with the smallest sequence number of all that are live.
    method Oldest() returns (s: SnapshotImpl)
      requires Valid() && ring != [list]
      ensures Live(s) && forall t :: Live(t) ==> s.number <= t.number
    {
      s := list.next;
      assert ring[0].next == ring[1];
    }

    /** Sequence numbers given to snapshots never decrease, which keeps the list in order. */
    method New(number: SequenceNumber) returns (s: SnapshotImpl)
      requires Valid() && forall t :: Live(t) ==> t.number <= number
      modifies this, ring
      ensures Valid() && ring == old(ring) + [s]
      ensures fresh(s) && s.number == number
    {
      s := new SnapshotImpl(number);
      assert forall i :: 1 <= i < |ring| ==> Live(ring[i]);
      s.next := list;
      s.prev := list.prev;
      s.prev.next := s;
      s.next.prev := s;
      ring := ring + [s];
    }

    // Makes the neighbours of s point at each other.
    method Unlink(s: SnapshotImpl, ghost k: nat)
      requires Valid() && 1 <= k < |ring| && ring[k] == s
      modifies ring
      ensures forall i {:trigger ring[i].next} :: 0 <= i < |ring| ==>
                ring[i].next == old(if i == k - 1 then ring[k].next else ring[i].next)
      ensures forall i {:trigger ring[i].prev} :: 0 <= i < |ring| ==>
                ring[i].prev == old(if i == (if k + 1 < |ring| then k + 1 else 0) then ring[k - 1] else ring[i].prev)
    {
      assert s.prev == ring[k - 1];
      assert s.next == if k + 1 < |ring| then ring[k + 1] else ring[0];
      s.prev.next := s.next;
      s.next.prev := s.prev;
    }

    method Delete(s: SnapshotImpl) returns (ghost k: nat)
      requires Valid() && Live(s)
      modifies this, ring
      ensures Valid()
      ensures 1 <= k < |old(ring)| && old(ring)[k] == s && ring == old(ring)[..k] + old(ring)[k + 1..]
    {
      k :| 1 <= k < |ring| && ring[k] == s;
      PassOver(s, k);
      ring := ring[..k] + ring[k + 1..];
    }

    method PassOver(s: SnapshotImpl, ghost k: nat)
      requires Valid() && 1 <= k < |ring| && ring[k] == s
      modifies ring
      ensures IsRing(ring[..k] + ring[k + 1..]) && ring[0] == list
    {
      Unlink(s, k);
      PastIsLinked(ring, k);
    }
  }
}
