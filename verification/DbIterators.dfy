/** DBIter: a cursor over the user keys visible at one sequence number, on top of an internal
    iterator that shows every entry ever stored. */
module DbIterators {
  import opened Primitives
  import opened InternalKeys
  import opened Iterators

  // ----- What the iterator must show -----

  // Entry i is what a reader at s sees of its user key: the newest visible one, and a value.
  predicate Yields(es: seq<Entry>, s: nat, i: nat)
    requires i < |es|
  {
    && es[i].key.kind == VALUE && es[i].key.sequence <= s
    && forall j :: 0 <= j < i && es[j].key.user == es[i].key.user ==> !Shows(es, s, j)
  }

  // Entry j can be read at s at all.
  predicate Shows(es: seq<Entry>, s: nat, j: nat)
    requires j < |es|
  {
    es[j].key.Parses() && es[j].key.sequence <= s
  }

  // No entry in [from, to) is shown.
  predicate Silent(es: seq<Entry>, s: nat, from: nat, to: nat) {
    forall i :: from <= i < to && i < |es| ==> !Yields(es, s, i)
  }

  // i is the first entry at or after from that is shown; |es| when there is none.
  predicate IsNextYield(es: seq<Entry>, s: nat, from: nat, i: nat) {
    && from <= i <= |es|
    && (i < |es| ==> Yields(es, s, i))
    && Silent(es, s, from, i)
  }

  // i is the last entry before to that is shown; |es| when there is none.
  predicate IsPrevYield(es: seq<Entry>, s: nat, to: nat, i: nat) {
    && to <= |es|
    && if i < to then Yields(es, s, i) && Silent(es, s, i + 1, to) else i == |es| && Silent(es, s, 0, to)
  }

  // In reverse the entry shown lies after the internal iterator's place, with nothing but entries
  // that no reader at s may see between.
  predicate ReversePosition(es: seq<Entry>, s: nat, cur: nat, pos: nat)
    requires cur < |es|
  {
    && (pos < |es| ==> pos < cur && es[pos].key.user < es[cur].key.user)
    && forall i :: (if pos < |es| then pos + 1 else 0) <= i < cur ==> !Shows(es, s, i)
  }

  // A forward scan is at p, looking for the first entry to show from start on.  What the
  // entries passed have to say is summed up by the user key to skip, if any.
  predicate ForwardScan(es: seq<Entry>, s: nat, p: nat, start: nat, skip: Option<UserKey>) {
    && p <= |es| && start <= |es|
    && Silent(es, s, start, p)
    && (forall i :: p <= i < |es| && start <= i && skip.Some? && es[i].key.user <= skip.value ==> !Yields(es, s, i))
    && (forall i, j :: 0 <= j < p <= i < |es| && es[j].key.user == es[i].key.user && Shows(es, s, j) ==>
          skip.Some? && es[i].key.user <= skip.value)
    && (forall i :: p <= i < start && Shows(es, s, i) ==>
          es[i].key.kind == VALUE && skip.Some? && es[i].key.user <= skip.value)
  }

  lemma ForwardScanAdvances(es: seq<Entry>, s: nat, p: nat, start: nat, skip: Option<UserKey>)
    requires Sorted(es) && p < |es| && ForwardScan(es, s, p, start, skip)
    ensures !Shows(es, s, p) ==> ForwardScan(es, s, p + 1, start, skip)
    ensures Shows(es, s, p) && es[p].key.kind == DELETION ==> ForwardScan(es, s, p + 1, start, Some(es[p].key.user))
    ensures skip.Some? && es[p].key.user <= skip.value && es[p].key.kind == VALUE ==> ForwardScan(es, s, p + 1, start, skip)
    ensures Shows(es, s, p) && es[p].key.kind == VALUE && !(skip.Some? && es[p].key.user <= skip.value) ==>
              IsNextYield(es, s, start, p)
  {
  }

  // A backward scan over (p, end) has c as candidate, or none; p is |es| when it is done.
  predicate BackwardScan(es: seq<Entry>, s: nat, p: nat, end: nat, c: Option<nat>) {
    var low := if p < |es| then p + 1 else 0;
    && low <= end <= |es|
    && match c
       case None => Silent(es, s, low, end)
       case Some(c) =>
         && low <= c < end
         && Shows(es, s, c) && es[c].key.kind == VALUE
         && (forall i :: low <= i < c ==> !Shows(es, s, i))
         && Silent(es, s, c + 1, end)
  }

  lemma BackwardScanAdvances(es: seq<Entry>, s: nat, p: nat, end: nat, c: Option<nat>)
    requires Sorted(es) && p < |es| && BackwardScan(es, s, p, end, c)
    ensures
      || (Shows(es, s, p) && c.Some? && es[p].key.user < es[c.value].key.user)
      || BackwardScan(es, s, if p == 0 then |es| else p - 1, end,
                   if !Shows(es, s, p) then c else if es[p].key.kind == VALUE then Some(p) else None)
  {
  }

  // Once the scan reaches an entry of a smaller user key, or the end, the candidate is shown.
  lemma BackwardScanFinds(es: seq<Entry>, s: nat, p: nat, end: nat, c: Option<nat>)
    requires Sorted(es) && p <= |es| && BackwardScan(es, s, p, end, c)
    requires p < |es| ==> c.Some? && es[p].key.user < es[c.value].key.user
    ensures IsPrevYield(es, s, end, if c.Some? then c.value else |es|)
    ensures c.Some? ==> ReversePosition(es, s, c.value, p)
  {
  }

  datatype Direction = Forward | Reverse

  class DBIter {
    const iter: InternalIterator
    const sequence: SequenceNumber
    var savedKey: Option<UserKey>  // None when cleared
    var savedValue: Bytes
    var direction: Direction
    var valid: bool
    var ok: bool  // no corrupt internal key was met
    ghost var cur: nat  // index of the entry shown; |entries| when not valid

    ghost predicate Valid()
      reads this, iter
    {
      && Sorted(iter.entries)
      && valid == (cur < |iter.entries|) && cur <= |iter.entries|
      && (valid ==> Yields(iter.entries, sequence, cur))
      && (valid && direction == Forward ==> iter.pos == cur)
      && (valid && direction == Reverse ==>
            && savedKey == Some(iter.entries[cur].key.user) && savedValue == iter.entries[cur].value
            && ReversePosition(iter.entries, sequence, cur, iter.pos))
      && StatusHonest() && iter.pos <= |iter.entries|
    }

    // An error is reported only if some stored key is corrupt.
    ghost predicate StatusHonest()
      reads this
    {
      !ok ==> exists e :: e in iter.entries && !e.key.Parses()
    }

    constructor (iter: InternalIterator, sequence: SequenceNumber)
      requires Sorted(iter.entries) && iter.pos <= |iter.entries|
      ensures Valid() && !valid && this.iter == iter && this.sequence == sequence
    {
      this.iter, this.sequence := iter, sequence;
      savedKey, savedValue := None, [];
      direction, valid, ok, cur := Forward, false, true, |iter.entries|;
    }

    method Key() returns (u: UserKey)
      requires Valid() && valid
      ensures u == iter.entries[cur].key.user
    {
      u := if direction == Forward then iter.entries[iter.pos].key.user else savedKey.value;
    }

    method Value() returns (value: Bytes)
      requires Valid() && valid
      ensures value == iter.entries[cur].value
    {
      value := if direction == Forward then iter.entries[iter.pos].value else savedValue;
    }

    method ParseKey() returns (r: bool)
      requires iter.Valid() && StatusHonest()
      modifies this`ok
      ensures r == iter.entries[iter.pos].key.Parses()
      ensures ok == (old(ok) && r) && StatusHonest()
    {
      r := iter.entries[iter.pos].key.Parses();
      assert iter.entries[iter.pos] in iter.entries;
      if !r {
        ok := false;
      }
    }

    // A forward scan is under way, and has missed no entry to show.
    ghost predicate Scanning(skip: bool, start: nat)
      reads this, iter
    {
      && Sorted(iter.entries) && direction == Forward && (skip ==> savedKey.Some?) && iter.pos <= |iter.entries|
      && ForwardScan(iter.entries, sequence, iter.pos, start, if skip then savedKey else None)
      && StatusHonest()
    }

    /** Loops until it hits an acceptable entry to show. */
    method FindNextUserEntry(skipping: bool, ghost start: nat)
      requires iter.Valid() && Scanning(skipping, start)
      modifies this, iter
      ensures Valid() && direction == Forward
      ensures IsNextYield(iter.entries, sequence, start, cur)
    {
      var skip := skipping;
      while iter.Valid()
        invariant Scanning(skip, start)
        decreases |iter.entries| - iter.pos
      {
        var shown;
        shown, skip := ShowOrSkip(skip, start);
        if shown {
          return;
        }
      }
      savedKey := None;
      valid := false;
      cur := |iter.entries|;
    }

    // Shows the entry at hand, or goes one on.
    method ShowOrSkip(skipping: bool, ghost start: nat) returns (shown: bool, skip: bool)
      requires iter.Valid() && Scanning(skipping, start)
      modifies this, iter
      ensures shown ==> Valid() && direction == Forward && IsNextYield(iter.entries, sequence, start, cur)
      ensures !shown ==> Scanning(skip, start) && iter.pos == old(iter.pos) + 1
    {
      skip := skipping;
      var e := iter.entries[iter.pos];
      ForwardScanAdvances(iter.entries, sequence, iter.pos, start, if skip then savedKey else None);
      var parsed := ParseKey();
      if parsed && e.key.sequence <= sequence {
        if e.key.kind == DELETION {
          // The marker hides the older entries of its key.
          savedKey := Some(e.key.user);
          skip := true;
        } else if skip && e.key.user <= savedKey.value {
          // Entry hidden
        } else {
          valid := true;
          savedKey := None;
          cur := iter.pos;
          return true, skip;
        }
      }
      iter.Next();
      shown := false;
    }

    /** Scans backwards for the newest visible entry of the first user key that has one. */
    method FindPrevUserEntry(ghost end: nat)
      requires Sorted(iter.entries) && direction == Reverse && iter.pos <= |iter.entries|
      requires BackwardScan(iter.entries, sequence, iter.pos, end, None)
      requires StatusHonest()
      modifies this, iter
      ensures Valid()
      ensures IsPrevYield(iter.entries, sequence, end, cur)
    {
      var valueType := DELETION;
      ghost var c: Option<nat> := None;
      while iter.Valid()
        invariant direction == Reverse && iter.pos <= |iter.entries|
        invariant BackwardScan(iter.entries, sequence, iter.pos, end, c)
        invariant valueType == if c.Some? then VALUE else DELETION
        invariant c.Some? ==> savedKey == Some(iter.entries[c.value].key.user) && savedValue == iter.entries[c.value].value
        invariant StatusHonest()
        decreases if iter.Valid() then iter.pos + 1 else 0
      {
        var e := iter.entries[iter.pos];
        BackwardScanAdvances(iter.entries, sequence, iter.pos, end, c);
        var parsed := ParseKey();
        if parsed && e.key.sequence <= sequence {
          if valueType != DELETION && e.key.user < savedKey.value {
            // The candidate is of a later key than this entry, and stands.
            break;
          }
          valueType := e.key.kind;
          if valueType == DELETION {
            savedKey := None;
            savedValue := [];
            c := None;
          } else {
            savedKey := Some(e.key.user);
            savedValue := e.value;
            c := Some(iter.pos);
          }
        }
        iter.Prev();
      }
      BackwardScanFinds(iter.entries, sequence, iter.pos, end, c);
      if valueType == DELETION {
        // End
        valid := false;
        savedKey := None;
        savedValue := [];
        direction := Forward;
        cur := |iter.entries|;
      } else {
        valid := true;
        cur := c.value;
      }
    }

    method Next()
      requires Valid() && valid
      modifies this, iter
      ensures Valid() && IsNextYield(iter.entries, sequence, old(cur) + 1, cur)
    {
      ghost var start := cur + 1;
      if direction == Reverse {
        direction := Forward;
        // Forward again: onto the entries of the key shown, and past them.
        if !iter.Valid() {
          iter.SeekToFirst();
        } else {
          iter.Next();
        }
        if !iter.Valid() {
          // The entries for this key are still ahead.
          assert false;
        }
      } else {
        savedKey := Some(iter.entries[iter.pos].key.user);
      }
      FindNextUserEntry(true, start);
    }

    method Prev()
      requires Valid() && valid
      modifies this, iter
      ensures Valid() && IsPrevYield(iter.entries, sequence, old(cur), cur)
    {
      ghost var end := cur;
      if direction == Forward {
        // Back over the entries of the key shown.
        savedKey := Some(iter.entries[iter.pos].key.user);
        while true
          invariant iter.pos <= end == cur && cur < |iter.entries|
          invariant savedKey == Some(iter.entries[end].key.user) && StatusHonest()
          invariant forall i :: iter.pos <= i <= end ==> iter.entries[i].key.user == savedKey.value
          decreases iter.pos
        {
          iter.Prev();
          if !iter.Valid() {
            valid := false;
            savedKey := None;
            savedValue := [];
            cur := |iter.entries|;
            return;
          }
          if iter.entries[iter.pos].key.user < savedKey.value {
            break;
          }
        }
        direction := Reverse;
      }
      FindPrevUserEntry(end);
    }

    method Seek(target: UserKey)
      requires Valid()
      modifies this, iter
      ensures Valid()
      ensures valid ==> iter.entries[cur].key.user >= target
      ensures forall i :: 0 <= i < |iter.entries| && iter.entries[i].key.user >= target && Yields(iter.entries, sequence, i) ==> cur <= i
    {
      direction := Forward;
      savedValue := [];
      savedKey := None;
      iter.Seek(LookupKey(target, sequence));
      if iter.Valid() {
        FindNextUserEntry(false, iter.pos);
      } else {
        valid := false;
        cur := |iter.entries|;
      }
    }

    method SeekToFirst()
      requires Valid()
      modifies this, iter
      ensures Valid() && IsNextYield(iter.entries, sequence, 0, cur)
    {
      direction := Forward;
      savedValue := [];
      iter.SeekToFirst();
      if iter.Valid() {
        FindNextUserEntry(false, 0);
      } else {
        valid := false;
        cur := |iter.entries|;
      }
    }

    method SeekToLast()
      requires Valid()
      modifies this, iter
      ensures Valid() && IsPrevYield(iter.entries, sequence, |iter.entries|, cur)
    {
      direction := Reverse;
      savedValue := [];
      iter.SeekToLast();
      FindPrevUserEntry(|iter.entries|);
    }
  }

  // ----- The user's view -----

  // The keys shown are those the reader can read, each once, in increasing order.
  lemma ShownKeysIncrease(es: seq<Entry>, s: nat, i: nat, j: nat)
    requires Sorted(es) && i < j < |es| && Yields(es, s, i) && Yields(es, s, j)
    ensures es[i].key.user < es[j].key.user
  {
    assert Before(es[i].key, es[j].key) && Shows(es, s, i);
  }

  lemma ShownEntriesAreReads(es: seq<Entry>, s: nat, i: nat)
    requires Sorted(es) && UniqueSequences(Elements(es)) && i < |es| && Yields(es, s, i)
    ensures Read(Elements(es), es[i].key.user, s) == Some(es[i].value)
  {
    assert es[i] in Elements(es);
    forall x | x in Elements(es) && Visible(x, es[i].key.user, s)
      ensures x.key.sequence <= es[i].key.sequence
    {
      var j :| 0 <= j < |es| && es[j] == x;
      assert Shows(es, s, j) && j >= i;
    }
    ReadNewest(Elements(es), es[i].key.user, s, es[i]);
  }

  lemma ReadsAreShown(es: seq<Entry>, u: UserKey, s: nat) returns (i: nat)
    requires Sorted(es) && UniqueSequences(Elements(es)) && Read(Elements(es), u, s).Some?
    ensures i < |es| && Yields(es, s, i) && es[i].key.user == u && Read(Elements(es), u, s) == Some(es[i].value)
  {
    var e :| IsNewest(Elements(es), u, s, e) && e.key.kind == VALUE;
    ReadNewest(Elements(es), u, s, e);
    i :| 0 <= i < |es| && es[i] == e;
    forall j | 0 <= j < i && es[j].key.user == u
      ensures !Shows(es, s, j)
    {
      assert es[j] in Elements(es) && Before(es[j].key, es[i].key);
    }
  }

  // ----- Every sequence of calls -----

  datatype Call = CallNext | CallPrev | CallSeek(target: UserKey) | CallSeekToFirst | CallSeekToLast

  function NextYield(es: seq<Entry>, s: nat, from: nat): (i: nat)
    requires from <= |es|
    ensures IsNextYield(es, s, from, i)
    decreases |es| - from
  {
    if from == |es| || Yields(es, s, from) then from else NextYield(es, s, from + 1)
  }

  function PrevYield(es: seq<Entry>, s: nat, to: nat): (i: nat)
    requires to <= |es|
    ensures IsPrevYield(es, s, to, i)
  {
    if to == 0 then |es| else if Yields(es, s, to - 1) then to - 1 else PrevYield(es, s, to - 1)
  }

  // The first entry whose user key is at or after target.
  function FirstOfUserKey(es: seq<Entry>, target: UserKey): nat {
    FirstAtOrAfter(es, InternalKey(target, MAX_SEQUENCE, 255))
  }

  // Where a cursor over the shown entries stands after the calls; stepping needs a position.
  function Replay(es: seq<Entry>, s: nat, calls: seq<Call>): (cur: nat)
    ensures cur <= |es|
  {
    if calls == [] then |es|
    else
      var before := Replay(es, s, calls[..|calls| - 1]);
      match calls[|calls| - 1]
      case CallNext => if before < |es| then NextYield(es, s, before + 1) else before
      case CallPrev => if before < |es| then PrevYield(es, s, before) else before
      case CallSeek(target) => NextYield(es, s, FirstOfUserKey(es, target))
      case CallSeekToFirst => NextYield(es, s, 0)
      case CallSeekToLast => PrevYield(es, s, |es|)
  }

  /** After any calls whatever, reversals of direction included, the iterator stands where the
      plain cursor over the shown entries does. */
  method Drive(it: DBIter, calls: seq<Call>)
    requires it.Valid() && !it.valid
    modifies it, it.iter
    ensures it.Valid()
    ensures it.cur == Replay(it.iter.entries, it.sequence, calls)
  {
    ghost var es := it.iter.entries;
    for i := 0 to |calls|
      invariant it.Valid() && it.cur == Replay(es, it.sequence, calls[..i])
    {
      assert calls[..i + 1][..i] == calls[..i];
      match calls[i]
      case CallNext =>
        if it.valid {
          it.Next();
        }
      case CallPrev =>
        if it.valid {
          it.Prev();
        }
      case CallSeek(target) =>
        it.Seek(target);
      case CallSeekToFirst =>
        it.SeekToFirst();
      case CallSeekToLast =>
        it.SeekToLast();
    }
    assert calls[..|calls|] == calls;
  }
}
