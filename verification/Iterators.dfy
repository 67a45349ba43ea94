/** The iterator interface, over one sorted run of entries. */
module Iterators {
  import opened InternalKeys

  /** An internal iterator over a sorted run of entries.  Off either end it is merely
      invalid: it does not remember which end it left. */
  class InternalIterator {
    const entries: seq<Entry>
    var pos: nat  // |entries| when invalid

    constructor (entries: seq<Entry>)
      ensures this.entries == entries && pos == |entries|
    {
      this.entries := entries;
      pos := |entries|;
    }

    predicate Valid()
      reads this
    {
      pos < |entries|
    }

    function Key(): InternalKey
      requires Valid()
      reads this
    {
      entries[pos].key
    }

    method SeekToFirst()
      modifies this
      ensures pos == 0
    {
      pos := 0;
    }

    method SeekToLast()
      modifies this
      ensures pos == if entries == [] then 0 else |entries| - 1
    {
      pos := if entries == [] then 0 else |entries| - 1;
    }

    method Seek(target: InternalKey)
      modifies this
      ensures pos == FirstAtOrAfter(entries, target)
    {
      pos := FirstAtOrAfter(entries, target);
    }

    method Next()
      requires Valid()
      modifies this
      ensures pos == old(pos) + 1
    {
      pos := pos + 1;
    }

    method Prev()
      requires Valid()
      modifies this
      ensures pos == if old(pos) == 0 then |entries| else old(pos) - 1
    {
      pos := if pos == 0 then |entries| else pos - 1;
    }
  }
}
